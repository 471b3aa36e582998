/** Bitcoin's variable-length integers (src/mining/validator.rs). */
module Varint {
  import opened Bytes
  import opened Wrappers

  /** A value in `n` little-endian bytes. */
  function LeFixed(v: nat, n: nat): (s: seq<byte>)
    requires v < Pow256(n)
    ensures |s| == n && LeNat(s) == v
  {
    ReverseSwapsEndianness(BeBytes(v, n));
    Reverse(BeBytes(v, n))
  }

  lemma Widths()
    ensures Pow256(2) == 0x1_0000 && Pow256(4) == 0x1_0000_0000
    ensures Pow256(8) == U64_MAX + 1
  {
    Pow256Values();
  }

  /** `encode_varint`. */
  function EncodeVarint(n: nat): (s: seq<byte>)
    requires n <= U64_MAX
    ensures s != []
  {
    Widths();
    if n < 0xfd then [n]
    else if n <= 0xffff then [0xfd] + LeFixed(n, 2)
    else if n <= 0xffff_ffff then [0xfe] + LeFixed(n, 4)
    else [0xff] + LeFixed(n, 8)
  }

  datatype Decoded = Value(n: nat, rest: seq<byte>) | Truncated

  function DecodeVarint(s: seq<byte>): Decoded {
    if s == [] then Truncated
    else
      var width := if s[0] == 0xfd then 2 else if s[0] == 0xfe then 4 else if s[0] == 0xff then 8 else 0;
      if width == 0 then Value(s[0], s[1..])
      else if |s| < 1 + width then Truncated
      else Value(LeNat(s[1..1 + width]), s[1 + width..])
  }

  /** A reader recovers the count and exactly what follows it. */
  lemma VarintRoundTrip(n: nat, rest: seq<byte>)
    requires n <= U64_MAX
    ensures DecodeVarint(EncodeVarint(n) + rest) == Value(n, rest)
  {
    Widths();
    var s := EncodeVarint(n) + rest;
    if n < 0xfd {
      assert s[1..] == rest;
    } else {
      var width := if n <= 0xffff then 2 else if n <= 0xffff_ffff then 4 else 8;
      assert s[1..1 + width] == LeFixed(n, width);
      assert s[1 + width..] == rest;
    }
  }

  /** One byte below 0xfd, then three, five and nine ... */
  lemma VarintLength(n: nat)
    requires n <= U64_MAX
    ensures |EncodeVarint(n)| == if n < 253 then 1 else if n < 65_536 then 3 else if n < 4_294_967_296 then 5 else 9
  {
    Widths();
  }

  /** ... and nothing shorter reads as the same value, which is what nodes demand. */
  lemma VarintShortest(n: nat, s: seq<byte>)
    requires n <= U64_MAX && DecodeVarint(s) == Value(n, [])
    ensures |EncodeVarint(n)| <= |s|
  {
    VarintLength(n);
    if s[0] >= 0xfd {
      LeNatBound(s[1..]);
      Widths();
      WidthOf(s);
    }
  }

  /** A prefix byte and the bytes it announces. */
  lemma WidthOf(s: seq<byte>)
    requires s != [] && s[0] >= 0xfd && DecodeVarint(s).Value? && DecodeVarint(s).rest == []
    ensures |s| == (if s[0] == 0xfd then 3 else if s[0] == 0xfe then 5 else 9) && DecodeVarint(s).n == LeNat(s[1..])
  {
    assert s[1..|s|] == s[1..];
  }
}
