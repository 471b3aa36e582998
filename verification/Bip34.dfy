/** The block height at the front of the coinbase script, as BIP 34
    (Specification) demands (src/bitcoin/template.rs). */
module Bip34 {
  import opened Arith
  import opened Bytes
  import opened Wrappers

  /** The significant little-endian bytes of a number. */
  function LeBytes(n: nat): seq<byte> {
    if n == 0 then [] else [n % 256] + LeBytes(n / 256)
  }

  /** `LeBytes` plus a zero byte where the top bit would read as a sign. */
  function HeightPayload(height: nat): seq<byte> {
    var b := LeBytes(height);
    if b != [] && b[|b| - 1] >= 0x80 then b + [0] else b
  }

  /** A length byte (the `u8` cast keeps the low byte) and the data. */
  function DataPush(payload: seq<byte>): seq<byte> {
    [|payload| % 256] + payload
  }

  function HeightPush(height: nat): seq<byte> {
    if height == 0 then [0x00]
    else if height <= 16 then [0x50 + height]
    else DataPush(HeightPayload(height))
  }

  /** `encode_bip34_height`. */
  method EncodeBip34Height(height: nat) returns (script: seq<byte>)
    requires height <= U64_MAX
    ensures script == HeightPush(height)
  {
    if height == 0 {
      return [0x00];
    }
    if height <= 16 {
      return [0x50 + height];
    }
    var n := height;
    var bytes: seq<byte> := [];
    while n > 0
      invariant bytes + LeBytes(n) == LeBytes(height)
    {
      NextByte(bytes, n);
      bytes := bytes + [n % 256];
      n := n / 256;
    }
    assert bytes == LeBytes(height);
    if bytes != [] && bytes[|bytes| - 1] >= 0x80 {
      bytes := bytes + [0x00];
    }
    script := DataPush(bytes);
  }

  lemma NextByte(bytes: seq<byte>, n: nat)
    requires n > 0
    ensures bytes + [n % 256] + LeBytes(n / 256) == bytes + LeBytes(n)
  {
  }

  // ----- The reader's side -----

  datatype Decoded = Height(height: nat, rest: seq<byte>) | Malformed

  /** A data push of `len` bytes; a set top bit would make it negative. */
  function DecodeNumber(len: nat, tail: seq<byte>): Decoded {
    if 1 <= len <= |tail| && tail[len - 1] < 0x80 then Height(LeNat(tail[..len]), tail[len..]) else Malformed
  }

  /** The height push at the front of a script, as a script interpreter reads it. */
  function DecodeHeight(script: seq<byte>): Decoded {
    if script == [] then Malformed
    else if script[0] == 0x00 then Height(0, script[1..])
    else if 0x51 <= script[0] <= 0x60 then Height(script[0] - 0x50, script[1..])
    else if script[0] <= 75 then DecodeNumber(script[0], script[1..])
    else Malformed
  }

  lemma {:induction false} LeBytesValue(n: nat)
    ensures LeNat(LeBytes(n)) == n
    ensures n > 0 ==> LeBytes(n) != [] && LeBytes(n)[|LeBytes(n)| - 1] > 0
    ensures n > 0 ==> LeBytes(n)[|LeBytes(n)| - 1] * Pow256(|LeBytes(n)| - 1) <= n
  {
    if n > 0 {
      LeBytesValue(n / 256);
      var (b, t) := (LeBytes(n), LeBytes(n / 256));
      assert b[1..] == t;
      if n / 256 > 0 {
        assert b[|b| - 1] == t[|t| - 1];
        assert b[|b| - 1] * Pow256(|b| - 1) == 256 * (t[|t| - 1] * Pow256(|t| - 1));
      }
    }
  }

  lemma {:induction false} LeBytesLength(n: nat, k: nat)
    requires n < Pow256(k)
    ensures |LeBytes(n)| <= k
  {
    if n > 0 {
      LeBytesLength(n / 256, k - 1);
    }
  }

  /** A payload has its top bit clear, denotes the height and is at most 9 bytes. */
  lemma PayloadValue(height: nat)
    requires 17 <= height <= U64_MAX
    ensures 1 <= |HeightPayload(height)| <= 9
    ensures HeightPayload(height)[|HeightPayload(height)| - 1] < 0x80
    ensures LeNat(HeightPayload(height)) == height
  {
    LeBytesValue(height);
    Pow256Values();
    LeBytesLength(height, 8);
    LeNatConcat(LeBytes(height), [0]);
    assert LeNat([0]) == 0;
  }

  lemma {:induction false} TopBitClear(c: seq<byte>)
    requires c != [] && c[|c| - 1] < 0x80
    ensures LeNat(c) < 0x80 * Pow256(|c| - 1)
  {
    if |c| == 1 {
      assert c[1..] == [];
    } else {
      TopBitClear(c[1..]);
    }
  }

  /** No shorter byte string with a clear top bit denotes the height. */
  lemma PayloadMinimal(height: nat, c: seq<byte>)
    requires 17 <= height <= U64_MAX
    requires c != [] && c[|c| - 1] < 0x80 && LeNat(c) == height
    ensures |HeightPayload(height)| <= |c|
  {
    var b := LeBytes(height);
    LeBytesValue(height);
    LeNatBound(c);
    TopBitClear(c);
    if |c| < |b| {
      Pow256Mono(|c|, |b| - 1);
      MulLe(1, b[|b| - 1], Pow256(|b| - 1));
      assert false;
    } else if |c| == |b| && b[|b| - 1] >= 0x80 {
      MulLe(0x80, b[|b| - 1], Pow256(|b| - 1));
      assert false;
    }
  }

  lemma NumberRoundTrip(p: seq<byte>, rest: seq<byte>)
    requires p != [] && p[|p| - 1] < 0x80
    ensures DecodeNumber(|p|, p + rest) == Height(LeNat(p), rest)
  {
    assert (p + rest)[..|p|] == p && (p + rest)[|p|..] == rest;
  }

  lemma DecodeOp(op: byte, tail: seq<byte>)
    ensures op == 0 ==> DecodeHeight([op] + tail) == Height(0, tail)
    ensures 0x51 <= op <= 0x60 ==> DecodeHeight([op] + tail) == Height(op - 0x50, tail)
    ensures 1 <= op <= 75 ==> DecodeHeight([op] + tail) == DecodeNumber(op, tail)
  {
    assert ([op] + tail)[1..] == tail;
  }

  lemma DataPushSplits(p: seq<byte>, rest: seq<byte>)
    requires |p| <= 75
    ensures DataPush(p) + rest == [|p|] + (p + rest)
  {
    var head: byte := |p|;
    assert DataPush(p) == [head] + p;
    assert [head] + p + rest == [head] + (p + rest);
  }

  lemma DataPushReads(p: seq<byte>, rest: seq<byte>)
    requires 1 <= |p| <= 75 && p[|p| - 1] < 0x80
    ensures DecodeHeight(DataPush(p) + rest) == Height(LeNat(p), rest)
  {
    DataPushSplits(p, rest);
    DecodeOp(|p|, p + rest);
    NumberRoundTrip(p, rest);
  }

  /** Reading the push gives the height back, whatever bytes follow. */
  lemma HeightRoundTrip(height: nat, rest: seq<byte>)
    requires height <= U64_MAX
    ensures DecodeHeight(HeightPush(height) + rest) == Height(height, rest)
  {
    if height <= 16 {
      DecodeOp(HeightPush(height)[0], rest);
    } else {
      PayloadValue(height);
      DataPushReads(HeightPayload(height), rest);
    }
  }

  /** Two pushes that read differently whatever follows are not prefixes. */
  lemma PrefixDecides(a: seq<byte>, b: seq<byte>, x: nat, y: nat, rest: seq<byte>)
    requires forall r: seq<byte> :: DecodeHeight(a + r) == Height(x, r)
    requires forall r: seq<byte> :: DecodeHeight(b + r) == Height(y, r)
    requires a <= b + rest
    ensures x == y
  {
    var after := (b + rest)[|a|..];
    assert a + after == b + rest;
    assert DecodeHeight(a + after) == Height(x, after) && DecodeHeight(b + rest) == Height(y, rest);
  }

  /** The prefix match of BIP 34 (Specification) accepts exactly one height. */
  lemma HeightPrefixFree(claimed: nat, actual: nat, rest: seq<byte>)
    requires claimed <= U64_MAX && actual <= U64_MAX
    ensures HeightPush(claimed) <= HeightPush(actual) + rest <==> claimed == actual
  {
    var (a, b) := (HeightPush(claimed), HeightPush(actual));
    if a <= b + rest {
      forall r: seq<byte> ensures DecodeHeight(a + r) == Height(claimed, r) { HeightRoundTrip(claimed, r); }
      forall r: seq<byte> ensures DecodeHeight(b + r) == Height(actual, r) { HeightRoundTrip(actual, r); }
      PrefixDecides(a, b, claimed, actual, rest);
    }
  }
}
