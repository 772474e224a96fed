/** The Ethernet address of an IPv4 multicast group (GenerateMulticastMac in
    socket/EthernetUtils.h). A group is the `uint32_t` that `inet_addr` returns on a
    little-endian host, so its least significant byte is the first octet. */
module MulticastMac {
  const BITS_8: bv32 := 8
  const BITS_16: bv32 := 16
  const BITS_24: bv32 := 24

  /** The bytes of `v` in memory, that is, the octets of an address. */
  function Octet0(v: bv32): bv8 {
    (v & 0xff) as bv8
  }

  function Octet1(v: bv32): bv8 {
    ((v >> BITS_8) & 0xff) as bv8
  }

  function Octet2(v: bv32): bv8 {
    ((v >> BITS_16) & 0xff) as bv8
  }

  function Octet3(v: bv32): bv8 {
    ((v >> BITS_24) & 0xff) as bv8
  }

  function Masked(group: bv32): bv32 {
    group & 0xffff7f00
  }

  /** Mask, then copy the last three bytes behind 01-00-5E. */
  function Mac(group: bv32): seq<bv8> {
    var multicastIP := Masked(group);
    [0x01, 0x00, 0x5e, Octet1(multicastIP), Octet2(multicastIP), Octet3(multicastIP)]
  }

  /** The address as the number it denotes: `ntohl`. */
  function HostOrder(group: bv32): bv32 {
    (group << BITS_24) | ((group & 0xff00) << BITS_8) | ((group >> BITS_8) & 0xff00) | (group >> BITS_24)
  }

  function Low23(group: bv32): bv32 {
    HostOrder(group) & 0x7fffff
  }

  lemma MaskedBytes(x: bv32)
    ensures Octet0(Masked(x)) == 0
    ensures Octet1(Masked(x)) == Octet1(x) & 0x7f
    ensures Octet2(Masked(x)) == Octet2(x)
    ensures Octet3(Masked(x)) == Octet3(x)
  {
  }

  lemma SwappedBytes(x: bv32)
    ensures Octet0(HostOrder(x)) == Octet3(x)
    ensures Octet1(HostOrder(x)) == Octet2(x)
    ensures Octet2(HostOrder(x)) == Octet1(x)
  {
  }

  lemma Low23Bytes(y: bv32)
    ensures Octet0(y & 0x7fffff) == Octet0(y)
    ensures Octet1(y & 0x7fffff) == Octet1(y)
    ensures Octet2(y & 0x7fffff) == Octet2(y) & 0x7f
    ensures Octet3(y & 0x7fffff) == 0
  {
  }

  lemma SameBytes(a: bv32, b: bv32)
    requires Octet0(a) == Octet0(b) && Octet1(a) == Octet1(b)
    requires Octet2(a) == Octet2(b) && Octet3(a) == Octet3(b)
    ensures a == b
  {
  }

  lemma MacBytes(g: bv32, h: bv32)
    ensures Mac(g) == Mac(h) <==> Masked(g) == Masked(h)
  {
    hide Masked, Octet0, Octet1, Octet2, Octet3;
    MaskedBytes(g);
    MaskedBytes(h);
    if Mac(g) == Mac(h) {
      assert Mac(g)[3] == Mac(h)[3] && Mac(g)[4] == Mac(h)[4] && Mac(g)[5] == Mac(h)[5];
      SameBytes(Masked(g), Masked(h));
    }
  }

  /** Two groups share a MAC exactly when the low 23 bits of their addresses agree
      (section 6.4 of RFC 1112). */
  lemma SharedMac(g: bv32, h: bv32)
    ensures Mac(g) == Mac(h) <==> Low23(g) == Low23(h)
  {
    hide Low23, Octet0, Octet1, Octet2, Octet3, Masked, Mac;
    MacBytes(g, h);
    MaskedBytes(g);
    MaskedBytes(h);
    Low23Octets(g);
    Low23Octets(h);
    if Masked(g) == Masked(h) {
      SameBytes(Low23(g), Low23(h));
    }
    if Low23(g) == Low23(h) {
      SameBytes(Masked(g), Masked(h));
    }
  }

  lemma Low23Octets(x: bv32)
    ensures Octet0(Low23(x)) == Octet3(x) && Octet1(Low23(x)) == Octet2(x)
    ensures Octet2(Low23(x)) == Octet1(x) & 0x7f && Octet3(Low23(x)) == 0
  {
    hide HostOrder, Octet0, Octet1, Octet2, Octet3;
    SwappedBytes(x);
    Low23Bytes(HostOrder(x));
  }

  /** Class D: the first octet is 224 to 239. */
  predicate IsMulticast(group: bv32) {
    (group & 0xf0) == 0xe0
  }

  /** The five address bits that the MAC does not carry, in a multicast group. */
  function Index(group: bv32): bv32 {
    ((group & 0x8000) >> 11) | (group & 0x0f)
  }

  /** The multicast group with the same MAC as `g` and index `i`. */
  function Sibling(g: bv32, i: bv32): bv32 {
    Masked(g) | 0xe0 | ((i & 0x10) << 11) | (i & 0x0f)
  }

  lemma SiblingBits(g: bv32, i: bv32)
    requires i < 32
    ensures IsMulticast(Sibling(g, i))
    ensures Masked(Sibling(g, i)) == Masked(g)
    ensures Index(Sibling(g, i)) == i
  {
  }

  lemma IndexBits(h: bv32)
    ensures Index(h) < 32
  {
  }

  lemma SiblingOfIndex(g: bv32, h: bv32)
    requires IsMulticast(h) && Masked(h) == Masked(g)
    ensures h == Sibling(g, Index(h))
  {
  }

  /** Every MAC of a multicast group is shared by exactly 32 groups, one for each
      value of the five bits it leaves out. */
  lemma ThirtyTwoGroupsPerMac(g: bv32, i: bv32)
    requires i < 32
    ensures IsMulticast(Sibling(g, i)) && Mac(Sibling(g, i)) == Mac(g) && Index(Sibling(g, i)) == i
    ensures forall h: bv32 :: IsMulticast(h) && Mac(h) == Mac(g) ==> Index(h) < 32 && h == Sibling(g, Index(h))
  {
    hide IsMulticast, Mac, Masked, Index, Sibling;
    SiblingBits(g, i);
    MacBytes(Sibling(g, i), g);
    forall h: bv32 | IsMulticast(h) && Mac(h) == Mac(g) ensures Index(h) < 32 && h == Sibling(g, Index(h)) {
      MacBytes(h, g);
      IndexBits(h);
      SiblingOfIndex(g, h);
    }
  }

  /** GenerateMulticastMac, on a fresh buffer. */
  method GenerateMulticastMac(group: bv32) returns (mac: array<bv8>)
    ensures fresh(mac) && mac[..] == Mac(group)
  {
    mac := new bv8[6];
    mac[0] := 0x01;
    mac[1] := 0x00;
    mac[2] := 0x5e;
    var multicastIP := Masked(group);
    mac[3], mac[4], mac[5] := Octet1(multicastIP), Octet2(multicastIP), Octet3(multicastIP);
  }
}
