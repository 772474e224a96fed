/** Machine integers and byte order on a little-endian host. A multi-byte field
    is stored least significant byte first; `htons` and `htonl` reverse the bytes
    of the value beforehand, so that they end up in network order. */
module Bytes {
  type byte = x: int | 0 <= x < 0x100
  type u16 = x: int | 0 <= x < 0x1_0000
  type u32 = x: int | 0 <= x < 0x1_0000_0000

  function Min(a: nat, b: nat): nat {
    if a <= b then a else b
  }

  const TWO_16 := 0x1_0000
  const TWO_24 := 0x100_0000
  const TWO_32 := 0x1_0000_0000
  const TWO_64 := 0x1_0000_0000_0000_0000

  // ----- values of any width -----

  function Pow256(n: nat): (r: nat)
    ensures r > 0
  {
    if n == 0 then 1 else 256 * Pow256(n - 1)
  }

  /** The `n` bytes of `v` in the memory of a little-endian host. */
  function Stored(v: nat, n: nat): (s: seq<byte>)
    ensures |s| == n
  {
    if n == 0 then [] else [v % 256] + Stored(v / 256, n - 1)
  }

  /** What a little-endian host loads from these bytes. */
  function HostValue(s: seq<byte>): nat {
    if |s| == 0 then 0 else s[0] + 256 * HostValue(s[1..])
  }

  /** What the bytes mean in network order. */
  function NetValue(s: seq<byte>): nat {
    if |s| == 0 then 0 else 256 * NetValue(s[..|s| - 1]) + s[|s| - 1]
  }

  function Reversed<T>(s: seq<T>): (r: seq<T>)
    ensures |r| == |s|
    ensures forall i :: 0 <= i < |s| ==> r[i] == s[|s| - 1 - i]
  {
    seq(|s|, i requires 0 <= i < |s| => s[|s| - 1 - i])
  }

  /** `htons` and `htonl`: the value whose `n` stored bytes are those of `v` reversed. */
  function Swapped(v: nat, n: nat): nat {
    HostValue(Reversed(Stored(v, n)))
  }

  lemma {:induction false} StoredHostValue(s: seq<byte>)
    ensures Stored(HostValue(s), |s|) == s
    ensures HostValue(s) < Pow256(|s|)
  {
    if |s| != 0 {
      StoredHostValue(s[1..]);
      var h := HostValue(s[1..]);
      assert (s[0] + 256 * h) % 256 == s[0] && (s[0] + 256 * h) / 256 == h;
    }
  }

  lemma {:induction false} HostValueStored(v: nat, n: nat)
    requires v < Pow256(n)
    ensures HostValue(Stored(v, n)) == v
  {
    if n != 0 {
      HostValueStored(v / 256, n - 1);
      assert Stored(v, n)[1..] == Stored(v / 256, n - 1);
    }
  }

  lemma {:induction false} NetValueReversed(s: seq<byte>)
    ensures NetValue(Reversed(s)) == HostValue(s)
  {
    if |s| != 0 {
      NetValueReversed(s[1..]);
      assert Reversed(s)[..|s| - 1] == Reversed(s[1..]);
    }
  }

  lemma {:induction false} StoredPrefix(v: nat, n: nat)
    ensures Stored(v, n + 1)[..n] == Stored(v, n)
  {
    if n != 0 {
      StoredPrefix(v / 256, n - 1);
      assert Stored(v, n + 1)[..n] == [v % 256] + Stored(v / 256, n)[..n - 1];
    }
  }

  lemma {:induction false} HostValueOfLowBytes(v: nat, n: nat)
    ensures HostValue(Stored(v, n)) == v % Pow256(n)
  {
    if n != 0 {
      HostValueOfLowBytes(v / 256, n - 1);
      assert Stored(v, n)[1..] == Stored(v / 256, n - 1);
      ModOfProduct(v, Pow256(n - 1));
    }
  }

  lemma ModOfProduct(v: nat, p: nat)
    requires p > 0
    ensures v % (256 * p) == v % 256 + 256 * (v / 256 % p)
  {
    var q, r := v / 256 / p, v / 256 % p;
    var low := v % 256 + 256 * r;
    assert v == q * (256 * p) + low;
    assert low < 256 * p;
    QuotientUnique(v, 256 * p, q, low);
  }

  lemma QuotientUnique(v: nat, d: nat, q: nat, r: nat)
    requires r < d && v == q * d + r
    ensures v % d == r
  {
    var e := v / d - q;
    assert v % d == r - e * d;
    Scaled(e, d);
  }

  lemma Scaled(e: int, d: nat)
    ensures e >= 1 ==> e * d >= d
    ensures e <= -1 ==> e * d <= -(d as int)
  {
  }

  /** A value passed through `htonl` (or `htons`) and stored reads as itself in
      network order. */
  lemma SwappedIsNetworkOrder(v: nat, n: nat)
    requires v < Pow256(n)
    ensures NetValue(Stored(Swapped(v, n), n)) == v
  {
    StoredHostValue(Reversed(Stored(v, n)));
    NetValueReversed(Stored(v, n));
    HostValueStored(v, n);
  }

  /** `htonl(v) >> 8` kept in one byte less: the low bytes of `v` in network order;
      the most significant byte is lost. */
  lemma ShiftedSwapKeepsLowBytes(v: nat, n: nat)
    ensures NetValue(Stored(Swapped(v, n + 1) / 256, n)) == v % Pow256(n)
  {
    var s := Stored(v, n + 1);
    StoredHostValue(Reversed(s));
    assert Stored(Swapped(v, n + 1) / 256, n) == Reversed(s)[1..];
    assert Reversed(s)[1..] == Reversed(s[..n]);
    NetValueReversed(s[..n]);
    StoredPrefix(v, n);
    HostValueOfLowBytes(v, n);
  }

  // ----- 16-bit fields -----

  /** Conversion to `uint16_t`. */
  function Trunc16(x: nat): (r: u16)
    ensures r <= x
  {
    x % TWO_16
  }

  /** Arithmetic on `uint64_t` counters. */
  function Wrap64(x: nat): (r: nat)
    ensures r < TWO_64
    ensures x < TWO_64 ==> r == x
  {
    x % TWO_64
  }

  lemma Wrap64Is(x: nat)
    ensures Wrap64(x) == x % 0x1_0000_0000_0000_0000
  {
  }

  lemma Wrap64Absorbs(x: nat, y: nat)
    ensures Wrap64(Wrap64(x) + y) == Wrap64(x + y)
  {
    QuotientUnique(x + y, TWO_64, x / TWO_64 + (Wrap64(x) + y) / TWO_64, (Wrap64(x) + y) % TWO_64);
  }

  /** The value of two bytes, `hi` being the more significant one. */
  function Word(hi: byte, lo: byte): u16 {
    256 * (hi as int) + lo
  }

  function Net16(s: seq<byte>, at: nat): u16
    requires at + 2 <= |s|
  {
    Word(s[at], s[at + 1])
  }

  /** The 16-bit store `*(uint16_t*)(s + at) = v`. */
  function Store16(s: seq<byte>, at: nat, v: u16): (r: seq<byte>)
    requires at + 2 <= |s|
    ensures |r| == |s|
  {
    s[at := v % 256][at + 1 := v / 256]
  }

  /** A 16-bit field written in network order. */
  function Put16(s: seq<byte>, at: nat, v: u16): (r: seq<byte>)
    requires at + 2 <= |s|
    ensures |r| == |s|
    ensures Net16(r, at) == v
    ensures forall k :: 0 <= k < |s| && k != at && k != at + 1 ==> r[k] == s[k]
  {
    s[at := v / 256][at + 1 := v % 256]
  }

  function Htons(v: u16): (r: u16)
    ensures r % 256 == v / 256 && r / 256 == v % 256
  {
    v % 256 * 256 + v / 256
  }

  /** Storing through `htons` writes the field in network order. */
  lemma HtonsStored(s: seq<byte>, at: nat, v: u16)
    requires at + 2 <= |s|
    ensures Store16(s, at, Htons(v)) == Put16(s, at, v)
  {
  }
}
