/** The Internet checksum as socket/EthernetUtils.h uses it: the verifier
    `CheckData` and the chained UDP sum. */
module Checksum {
  import opened Bytes

  const ONES := 0xFFFF

  // ----- sums of 16-bit words -----

  function Sum(ws: seq<u16>): nat {
    if |ws| == 0 then 0 else Sum(ws[..|ws| - 1]) + ws[|ws| - 1]
  }

  /** The first `n` words of `s`, as a little-endian host loads them. */
  function HostWords(s: seq<byte>, n: nat): (ws: seq<u16>)
    requires 2 * n <= |s|
    ensures |ws| == n
  {
    seq(n, i requires 0 <= i < n => Word(s[2 * i + 1], s[2 * i]))
  }

  /** The same words in network byte order. */
  function NetWords(s: seq<byte>, n: nat): (ws: seq<u16>)
    requires 2 * n <= |s|
    ensures |ws| == n
  {
    seq(n, i requires 0 <= i < n => Net16(s, 2 * i))
  }

  /** The sum of a segment's words in network order; an odd segment is completed
      by one zero byte (section 4.1 of RFC 1071). */
  function NetSum(s: seq<byte>): nat {
    if |s| == 0 then 0
    else if |s| == 1 then Word(s[0], 0)
    else Word(s[0], s[1]) + NetSum(s[2..])
  }

  lemma HostWordsInit(s: seq<byte>, n: nat)
    requires 2 * n + 2 <= |s|
    ensures HostWords(s, n + 1) == HostWords(s, n) + [Word(s[2 * n + 1], s[2 * n])]
  {
    hide Word;
  }

  lemma NetWordsInit(s: seq<byte>, n: nat)
    requires 2 * n + 2 <= |s|
    ensures NetWords(s, n + 1) == NetWords(s, n) + [Net16(s, 2 * n)]
  {
    hide Word;
  }

  lemma SumAppend(ws: seq<u16>, w: u16)
    ensures Sum(ws + [w]) == Sum(ws) + w
  {
    assert (ws + [w])[..|ws|] == ws;
  }

  lemma {:induction false} SumConcat(a: seq<u16>, b: seq<u16>)
    ensures Sum(a + b) == Sum(a) + Sum(b)
  {
    if |b| == 0 {
      assert a + b == a;
    } else {
      SumConcat(a, b[..|b| - 1]);
      assert (a + b)[..|a + b| - 1] == a + b[..|b| - 1];
    }
  }

  lemma {:induction false} SumUpdate(ws: seq<u16>, i: nat, v: u16)
    requires i < |ws|
    ensures Sum(ws[i := v]) == Sum(ws) - ws[i] + v
  {
    var n := |ws| - 1;
    if i == n {
      assert ws[i := v][..n] == ws[..n];
    } else {
      SumUpdate(ws[..n], i, v);
      assert ws[i := v][..n] == ws[..n][i := v];
    }
  }

  lemma {:induction false} SumRemove(ws: seq<u16>, i: nat)
    requires i < |ws|
    ensures Sum(ws[..i] + ws[i + 1..]) == Sum(ws) - ws[i]
    ensures multiset(ws[..i] + ws[i + 1..]) == multiset(ws) - multiset{ws[i]}
  {
    assert ws == ws[..i] + ([ws[i]] + ws[i + 1..]);
    SumConcat(ws[..i], [ws[i]] + ws[i + 1..]);
    SumConcat([ws[i]], ws[i + 1..]);
    SumConcat(ws[..i], ws[i + 1..]);
    assert [ws[i]][..0] == [];
  }

  /** Section 2 (A) of RFC 1071: the sum does not depend on the order of the words. */
  lemma {:induction false} SumPermutation(a: seq<u16>, b: seq<u16>)
    requires multiset(a) == multiset(b)
    ensures Sum(a) == Sum(b)
    decreases |a|
  {
    if |a| == 0 {
      assert |multiset(b)| == 0;
    } else {
      var x := a[|a| - 1];
      assert a == a[..|a| - 1] + [x];
      assert x in multiset(b);
      var i :| 0 <= i < |b| && b[i] == x;
      SumRemove(b, i);
      SumPermutation(a[..|a| - 1], b[..i] + b[i + 1..]);
    }
  }

  lemma {:induction false} SumBound(ws: seq<u16>)
    ensures Sum(ws) <= ONES * |ws|
  {
    if |ws| != 0 {
      SumBound(ws[..|ws| - 1]);
    }
  }

  // ----- CheckData -----

  /** When a sum of words is the representation of one's-complement minus zero. */
  predicate Balanced(sum: nat) {
    sum > 0 && sum % ONES == 0
  }

  function WordCount(len: u16): nat {
    if len % 2 == 0 then len / 2 else len / 2 + 1
  }

  /** `n` words sum up to zero in one's-complement arithmetic. */
  predicate WordsAccepted(s: seq<byte>, n: nat)
    requires 2 * n <= |s|
  {
    Balanced(Sum(HostWords(s, n)))
  }

  /** The verdict of `CheckData` on the first `len` bytes. */
  predicate Accepted(s: seq<byte>, len: u16)
    requires 2 * WordCount(len) <= |s|
  {
    WordsAccepted(s, WordCount(len))
  }

  /** Unsigned 32-bit addition. */
  function Add32(a: u32, b: u32): (r: u32)
    ensures a as int + b < TWO_32 ==> r == a as int + b
  {
    (a as int + b) % TWO_32
  }

  /** `(sum >> 16) + (sum & 0xffff)`. */
  function FirstFold(sum: u32): (r: u32)
    ensures r <= 2 * ONES
  {
    sum / TWO_16 + sum % TWO_16
  }

  /** `sum + (sum >> 16)`, without a mask. */
  function SecondFold(sum: u32): u32 {
    Add32(sum, sum / TWO_16)
  }

  /** The missing mask of the second fold never changes the verdict, because the
      first fold is at most 98302 on every buffer of a 16-bit length. */
  lemma UnmaskedFold(sum: u32)
    requires sum <= ONES * 0x8000
    ensures FirstFold(sum) <= 98302
    ensures SecondFold(FirstFold(sum)) == ONES <==> Balanced(sum)
  {
    var f := FirstFold(sum);
    assert sum == ONES * (sum / TWO_16) + f;
    assert f % ONES == sum % ONES;
  }

  lemma HostWordsAt(s: seq<byte>, n: nat, i: nat)
    requires i < n && 2 * n <= |s|
    ensures HostWords(s, n)[i] == Word(s[2 * i + 1], s[2 * i])
  {
  }

  lemma SumPrefix(ws: seq<u16>, k: nat)
    requires k < |ws|
    ensures Sum(ws[..k + 1]) == Sum(ws[..k]) + ws[k]
  {
    assert ws[..k + 1] == ws[..k] + [ws[k]];
    SumAppend(ws[..k], ws[k]);
  }

  /** `CheckData`. An odd length makes the loop read one byte past `len`, so that
      byte has to be readable. */
  method CheckData(data: array<byte>, len: u16) returns (ok: bool)
    requires 2 * WordCount(len) <= data.Length
    ensures ok <==> Accepted(data[..], len)
  {
    hide HostWords, Balanced, FirstFold, SecondFold, Sum, Word;
    var sum: u32 := 0;
    var left := WordCount(len);
    var at := 0;
    ghost var n := left;
    ghost var words := HostWords(data[..], n);
    SumBound(words[..0]);
    while left > 0
      invariant 0 <= left <= n <= 0x8000 && at == 2 * (n - left)
      invariant sum == Sum(words[..n - left]) <= ONES * (n - left)
    {
      HostWordsAt(data[..], n, n - left);
      SumPrefix(words, n - left);
      sum := Add32(sum, Word(data[at + 1], data[at]));
      at, left := at + 2, left - 1;
    }
    assert words[..n] == words;
    UnmaskedFold(sum);
    ok := SecondFold(FirstFold(sum)) == ONES;
  }

  lemma SwapOneWord(host: nat, net: nat, a: byte, b: byte, hi: nat, lo: nat)
    requires 256 * net == host + ONES * hi && 256 * host == net + ONES * lo
    ensures 256 * (net + Word(a, b)) == host + Word(b, a) + ONES * (hi + a)
    ensures 256 * (host + Word(b, a)) == net + Word(a, b) + ONES * (lo + b)
    ensures Word(a, b) == 0 <==> Word(b, a) == 0
  {
  }

  lemma {:induction false} SwappedSums(s: seq<byte>, n: nat) returns (hi: nat, lo: nat)
    requires 2 * n <= |s|
    ensures 256 * Sum(NetWords(s, n)) == Sum(HostWords(s, n)) + ONES * hi
    ensures 256 * Sum(HostWords(s, n)) == Sum(NetWords(s, n)) + ONES * lo
    ensures Sum(NetWords(s, n)) == 0 <==> Sum(HostWords(s, n)) == 0
  {
    hide HostWords, NetWords, Word;
    if n == 0 {
      hi, lo := 0, 0;
    } else {
      hi, lo := SwappedSums(s, n - 1);
      HostWordsInit(s, n - 1);
      NetWordsInit(s, n - 1);
      var a, b := s[2 * n - 2], s[2 * n - 1];
      var host, net := HostWords(s, n - 1), NetWords(s, n - 1);
      SumAppend(host, Word(b, a));
      SumAppend(net, Word(a, b));
      SwapOneWord(Sum(host), Sum(net), a, b, hi, lo);
      hi, lo := hi + a, lo + b;
    }
  }

  /** Section 2 (B) of RFC 1071: the byte order in which the words are loaded
      does not change the verdict. */
  lemma ByteOrderIndependence(s: seq<byte>, n: nat)
    requires 2 * n <= |s|
    ensures WordsAccepted(s, n) <==> Balanced(Sum(NetWords(s, n)))
  {
    var hi, lo := SwappedSums(s, n);
    var host, net := Sum(HostWords(s, n)), Sum(NetWords(s, n));
    if host % ONES == 0 {
      var k := host / ONES;
      assert net == ONES * (256 * k - lo);
      MultipleOfOnes(256 * k - lo);
    }
    if net % ONES == 0 {
      var k := net / ONES;
      assert host == ONES * (256 * k - hi);
      MultipleOfOnes(256 * k - hi);
    }
  }

  lemma MultipleOfOnes(k: int)
    ensures ONES * k % ONES == 0
  {
  }

  /** Reordering the words of a buffer keeps the verdict. */
  lemma WordOrderIndependence(s: seq<byte>, t: seq<byte>, len: u16)
    requires 2 * WordCount(len) <= |s| && 2 * WordCount(len) <= |t|
    requires multiset(HostWords(s, WordCount(len))) == multiset(HostWords(t, WordCount(len)))
    ensures Accepted(s, len) <==> Accepted(t, len)
  {
    SumPermutation(HostWords(s, WordCount(len)), HostWords(t, WordCount(len)));
  }

  /** Error detection, exactly: after one word `old` of an accepted buffer is
      replaced by `v`, the buffer is still accepted only if nothing changed or one
      form of zero was exchanged for the other and some word is still nonzero. */
  lemma SingleWordError(ws: seq<u16>, i: nat, v: u16)
    requires i < |ws| && Balanced(Sum(ws))
    ensures Balanced(Sum(ws[i := v])) <==>
              || v == ws[i]
              || (ws[i] == 0 && v == ONES)
              || (ws[i] == ONES && v == 0 && Sum(ws) > ONES)
  {
    SumUpdate(ws, i, v);
    var d := v - ws[i];
    assert (Sum(ws) + d) % ONES == 0 <==> d % ONES == 0;
    assert d % ONES == 0 <==> d == 0 || d == ONES || d == -ONES;
  }

  /** The same on bytes: overwriting word `i` of an accepted buffer. */
  lemma SingleWordErrorInBuffer(s: seq<byte>, len: u16, i: nat, v: u16)
    requires i < WordCount(len) && 2 * WordCount(len) <= |s|
    requires Accepted(s, len)
    ensures var ws := HostWords(s, WordCount(len));
            Accepted(Store16(s, 2 * i, v), len) <==>
              || v == ws[i]
              || (ws[i] == 0 && v == ONES)
              || (ws[i] == ONES && v == 0 && Sum(ws) > ONES)
  {
    hide Balanced, Sum, HostWords, Store16;
    HostWordStored(s, WordCount(len), i, v);
    SingleWordError(HostWords(s, WordCount(len)), i, v);
  }

  lemma HostWordStored(s: seq<byte>, n: nat, i: nat, v: u16)
    requires i < n && 2 * n <= |s|
    ensures HostWords(Store16(s, 2 * i, v), n) == HostWords(s, n)[i := v]
  {
  }

  // ----- DataContainer's primitives, assumed to follow section 2 of RFC 1071 -----

  /** One's-complement residue: 0 only for an empty sum, otherwise 1..0xFFFF. */
  function Fold(sum: nat): (r: u16)
    ensures r % ONES == sum % ONES
    ensures r == 0 <==> sum == 0
  {
    if sum == 0 then 0 else (sum - 1) % ONES + 1
  }

  /** The contract determines the result: whatever implementation meets it
      returns `Fold`. */
  lemma FoldIsUnique(sum: nat, r: u16)
    requires r % ONES == sum % ONES
    requires r == 0 <==> sum == 0
    ensures r == Fold(sum)
  {
  }

  function GenerateChecksumUnwrapped(data: seq<byte>, sum: nat): u16 {
    Fold(sum + NetSum(data))
  }

  /** Wrapsum and GenerateChecksum return `htons` of the complement; here and below
      checksums are values, written with `Put16`. */
  function Wrapsum(sum: u16): u16 {
    ONES - sum
  }

  function GenerateChecksum(data: seq<byte>): u16 {
    Wrapsum(GenerateChecksumUnwrapped(data, 0))
  }

  lemma SameResidue(a: nat, b: nat, y: nat)
    requires a % ONES == b % ONES
    ensures (a + y) % ONES == (b + y) % ONES
  {
    var d := a / ONES - b / ONES;
    assert a + y == b + y + ONES * d;
    ShiftedResidue(b + y, d);
  }

  lemma ShiftedResidue(x: nat, d: int)
    requires x + ONES * d >= 0
    ensures (x + ONES * d) % ONES == x % ONES
  {
  }

  lemma FoldAbsorbs(x: nat, y: nat)
    ensures Fold(Fold(x) + y) == Fold(x + y)
  {
    hide Fold;
    SameResidue(Fold(x), x, y);
    FoldIsUnique(x + y, Fold(Fold(x) + y));
  }

  /** A sum is balanced exactly when its residue is written as 0xFFFF. */
  lemma BalancedFolds(sum: nat)
    ensures Balanced(sum) <==> Fold(sum) == ONES
  {
  }

  /** Adding the complement of a sum to that sum balances it. */
  lemma ComplementBalances(sum: nat)
    ensures Balanced(sum + (ONES - Fold(sum)))
  {
    hide Fold;
    SameResidue(sum, Fold(sum), ONES - Fold(sum));
  }

  // ----- segments -----

  lemma {:induction false} NetSumConcat(a: seq<byte>, b: seq<byte>, n: nat)
    requires |a| == 2 * n
    ensures NetSum(a + b) == NetSum(a) + NetSum(b)
  {
    if n == 0 {
      assert a + b == b;
    } else {
      NetSumConcat(a[2..], b, n - 1);
      assert (a + b)[2..] == a[2..] + b;
    }
  }

  lemma {:induction false} NetSumPut(s: seq<byte>, i: nat, v: u16)
    requires 2 * i + 2 <= |s|
    ensures NetSum(Put16(s, 2 * i, v)) == NetSum(s) - Net16(s, 2 * i) + v
  {
    var t := Put16(s, 2 * i, v);
    if i == 0 {
      assert t[2..] == s[2..];
    } else {
      NetSumPut(s[2..], i - 1, v);
      assert t[2..] == Put16(s[2..], 2 * (i - 1), v);
    }
  }

  lemma NetSumOfPair(a: byte, b: byte)
    ensures NetSum([a, b]) == Word(a, b)
  {
    assert [a, b][2..] == [];
  }

  lemma {:induction false} NetSumIsSumOfWords(s: seq<byte>, n: nat)
    requires 2 * n <= |s|
    ensures NetSum(s[..2 * n]) == Sum(NetWords(s, n))
  {
    if n != 0 {
      NetSumIsSumOfWords(s, n - 1);
      NetWordsInit(s, n - 1);
      SumAppend(NetWords(s, n - 1), Net16(s, 2 * n - 2));
      hide NetSum, Sum, NetWords, Word;
      assert s[..2 * n] == s[..2 * n - 2] + [s[2 * n - 2], s[2 * n - 1]];
      NetSumConcat(s[..2 * n - 2], [s[2 * n - 2], s[2 * n - 1]], n - 1);
      NetSumOfPair(s[2 * n - 2], s[2 * n - 1]);
    }
  }

  /** `CheckData` against the definition of RFC 1071 on exactly `len` bytes: they
      differ by the byte that an odd length makes the loop read past the end. So
      for odd lengths the two agree on every buffer whose next byte is zero. */
  lemma CheckDataAgainstRfc1071(s: seq<byte>, len: u16)
    requires 2 * WordCount(len) <= |s|
    ensures Accepted(s, len) <==> Balanced(NetSum(s[..len]) + if len % 2 == 0 then 0 else s[len])
  {
    hide Balanced, NetSum, Sum, NetWords;
    var n := WordCount(len);
    ByteOrderIndependence(s, n);
    NetSumIsSumOfWords(s, n);
    if len % 2 != 0 {
      OddSegment(s, n - 1);
    }
  }

  lemma OddSegment(s: seq<byte>, n: nat)
    requires 2 * n + 2 <= |s|
    ensures NetSum(s[..2 * n + 2]) == NetSum(s[..2 * n + 1]) + s[2 * n + 1]
  {
    var a := s[..2 * n];
    assert s[..2 * n + 2] == a + [s[2 * n], s[2 * n + 1]];
    assert s[..2 * n + 1] == a + [s[2 * n]];
    NetSumOfPair(s[2 * n], s[2 * n + 1]);
    assert NetSum([s[2 * n]]) == Word(s[2 * n], 0);
    hide NetSum;
    NetSumConcat(a, [s[2 * n], s[2 * n + 1]], n);
    NetSumConcat(a, [s[2 * n]], n);
  }

  /** A header whose checksum field was zeroed and then filled by
      `GenerateChecksum` over the whole header is accepted word for word (section
      3.1 of RFC 791). */
  lemma GeneratedChecksumAccepted(s: seq<byte>, n: nat, i: nat)
    requires |s| == 2 * n && i < n
    requires Net16(s, 2 * i) == 0
    ensures WordsAccepted(Put16(s, 2 * i, GenerateChecksum(s)), n)
  {
    hide Balanced, Fold, NetSum, Sum, NetWords, HostWords, Put16, Word;
    var t := Put16(s, 2 * i, GenerateChecksum(s));
    NetSumPut(s, i, GenerateChecksum(s));
    ComplementBalances(NetSum(s));
    NetSumIsSumOfWords(t, n);
    assert t[..2 * n] == t;
    ByteOrderIndependence(t, n);
  }
}
