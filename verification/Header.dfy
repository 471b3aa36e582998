/** Block headers and whole blocks (src/mining/validator.rs, with the previous-hash
    conversions of src/bitcoin/template.rs and src/protocol/sv2/job.rs). */
module Header {
  import opened Wrappers
  import opened Bytes
  import opened Varint
  import opened Coinbase
  import opened Merkle
  import Arith

  // ----- Stratum's word-swapped hashes -----

  function SwapFirst(s: seq<byte>): (w: seq<byte>)
    requires |s| >= 4
  {
    [s[3], s[2], s[1], s[0]]
  }

  /** Each four-byte word reversed. */
  function SwapWords(s: seq<byte>): (r: seq<byte>)
    requires |s| % 4 == 0
    ensures |r| == |s|
  {
    if s == [] then [] else SwapFirst(s) + SwapWords(s[4..])
  }

  lemma {:induction false} SwapTwice(s: seq<byte>)
    requires |s| % 4 == 0
    ensures SwapWords(SwapWords(s)) == s
  {
    if s != [] {
      var r := SwapWords(s);
      assert r[4..] == SwapWords(s[4..]);
      SwapTwice(s[4..]);
      assert SwapFirst(r) == s[..4];
      assert s == s[..4] + s[4..];
    }
  }

  /** Word `w` of `a` is word `w` of `s` reversed. */
  predicate Mirrored(a: seq<byte>, s: seq<byte>, w: nat)
    requires 4 * w + 4 <= |a| && |a| == |s|
  {
    a[4 * w] == s[4 * w + 3] && a[4 * w + 1] == s[4 * w + 2] && a[4 * w + 2] == s[4 * w + 1] && a[4 * w + 3] == s[4 * w]
  }

  lemma {:induction false} SwapMirrors(s: seq<byte>, w: nat)
    requires |s| % 4 == 0 && 4 * w + 4 <= |s|
    ensures Mirrored(SwapWords(s), s, w)
  {
    var (r, tail) := (SwapWords(s), s[4..]);
    if w > 0 {
      SwapMirrors(tail, w - 1);
      ShiftedMirror(SwapFirst(s), SwapWords(tail), s[..4], tail, w - 1);
      assert s == s[..4] + tail;
    }
  }

  lemma ShiftedMirror(x: seq<byte>, a: seq<byte>, y: seq<byte>, s: seq<byte>, w: nat)
    requires |x| == |y| == 4 && 4 * w + 4 <= |a| && |a| == |s| && Mirrored(a, s, w)
    ensures Mirrored(x + a, y + s, w + 1)
  {
  }

  /** Word by word equality is equality. */
  lemma AllMirrored(a: seq<byte>, s: seq<byte>)
    requires |a| == |s| && |s| % 4 == 0 && forall w: nat :: 4 * w + 4 <= |s| ==> Mirrored(a, s, w)
    ensures a == SwapWords(s)
  {
    var r := SwapWords(s);
    forall i | 0 <= i < |s| ensures a[i] == r[i] {
      var w := i / 4;
      assert Mirrored(a, s, w);
      SwapMirrors(s, w);
      assert i == 4 * w || i == 4 * w + 1 || i == 4 * w + 2 || i == 4 * w + 3;
    }
  }

  /** Word by word, in place. */
  method SwapWordsInPlace(a: array<byte>)
    requires a.Length % 4 == 0
    modifies a
    ensures a[..] == SwapWords(old(a[..]))
  {
    ghost var was := a[..];
    var w := 0;
    while 4 * w < a.Length
      invariant 0 <= 4 * w <= a.Length
      invariant forall v: nat :: v < w ==> Mirrored(a[..], was, v)
      invariant forall i :: 4 * w <= i < a.Length ==> a[i] == was[i]
    {
      ghost var before := a[..];
      SwapWord(a, 4 * w);
      forall v: nat | v <= w ensures Mirrored(a[..], was, v) {
        assert v < w ==> Mirrored(before, was, v);
      }
      w := w + 1;
    }
    AllMirrored(a[..], was);
  }

  /** One word, in place. */
  method SwapWord(a: array<byte>, at: nat)
    requires at + 4 <= a.Length
    modifies a
    ensures a[at] == old(a[at + 3]) && a[at + 1] == old(a[at + 2])
    ensures a[at + 2] == old(a[at + 1]) && a[at + 3] == old(a[at])
    ensures forall i :: 0 <= i < at || at + 4 <= i < a.Length ==> a[i] == old(a[i])
  {
    a[at], a[at + 3] := a[at + 3], a[at];
    a[at + 1], a[at + 2] := a[at + 2], a[at + 1];
  }

  /** `stratum_prev_hash` on the decoded bytes: display order to Stratum order. */
  method StratumPrevHash(display: seq<byte>) returns (r: Option<seq<byte>>)
    ensures r.None? <==> |display| != 32
    ensures r.Some? ==> |r.value| == 32 && SwapWords(r.value) == Reverse(display)
  {
    if |display| != 32 {
      return None;
    }
    var reversed := Reverse(display);
    var bytes := new byte[32](i requires 0 <= i < 32 => reversed[i]);
    assert bytes[..] == reversed;
    SwapWordsInPlace(bytes);
    SwapTwice(reversed);
    r := Some(bytes[..]);
  }

  /** `stratum_prevhash_to_internal`: what a Stratum V2 device is told is the internal
      hash the header is built on. */
  method StratumPrevHashToInternal(stratum: seq<byte>) returns (r: Option<seq<byte>>)
    ensures r.None? <==> |stratum| != 32
    ensures r.Some? ==> r.value == SwapWords(stratum)
  {
    if |stratum| != 32 {
      return None;
    }
    var bytes := new byte[32](i requires 0 <= i < 32 => stratum[i]);
    assert bytes[..] == stratum;
    SwapWordsInPlace(bytes);
    r := Some(bytes[..]);
  }

  // ----- Version rolling -----

  /** A 32-bit word, least significant bit first. */
  type Word = w: seq<bool> | |w| == 32 witness seq(32, _ => false)

  function And(a: Word, b: Word): Word { seq(32, i requires 0 <= i < 32 => a[i] && b[i]) }

  function Or(a: Word, b: Word): Word { seq(32, i requires 0 <= i < 32 => a[i] || b[i]) }

  function Not(a: Word): Word { seq(32, i requires 0 <= i < 32 => !a[i]) }

  function Zero(): Word { seq(32, _ => false) }

  /** BIP 320's mask, 0x1fffe000. */
  function VersionRollingMask(): Word { seq(32, i => 13 <= i <= 28) }

  function Number(w: seq<bool>): nat { if w == [] then 0 else (if w[0] then 1 else 0) + 2 * Number(w[1..]) }

  lemma {:induction false} Pow2Add(m: nat, n: nat)
    ensures Pow2(m + n) == Pow2(m) * Pow2(n)
  {
    if m > 0 {
      Pow2Add(m - 1, n);
      Arith.MulAssoc(2, Pow2(m - 1), Pow2(n));
    }
  }

  lemma {:induction false} NumberBound(w: seq<bool>)
    ensures Number(w) < Pow2(|w|)
  {
    if w != [] {
      NumberBound(w[1..]);
    }
  }

  lemma WordIsU32(w: Word)
    ensures U32(Number(w))
  {
    NumberBound(w);
    assert Pow2(8) == 256;
    Pow2Add(8, 8);
    Pow2Add(16, 16);
  }

  /** Bit `i` of a number. */
  predicate Bit(n: nat, i: nat) { n / Pow2(i) % 2 == 1 }

  lemma {:induction false} NumberBits(w: seq<bool>, i: nat)
    requires i < |w|
    ensures Bit(Number(w), i) <==> w[i]
  {
    var (bit, upper) := (if w[0] then 1 else 0, Number(w[1..]));
    if i == 0 {
      assert (bit + 2 * upper) % 2 == bit;
    } else {
      NumberBits(w[1..], i - 1);
      HalveTwice(bit, upper, Pow2(i - 1));
    }
  }

  lemma HalveTwice(bit: nat, upper: nat, p: nat)
    requires bit <= 1 && p > 0
    ensures (bit + 2 * upper) / (2 * p) == upper / p
  {
    var (q, r) := (upper / p, upper % p);
    Arith.DivMod(upper, p);
    assert bit + 2 * upper == q * (2 * p) + (bit + 2 * r);
    Arith.QuotientOf(bit + 2 * upper, q, 2 * p, bit + 2 * r);
  }

  /** The miner may set this bit; without a negotiated mask, bits 13 to 28. */
  predicate MayRoll(mask: Option<Word>, i: nat)
    requires i < 32
  {
    if mask.Some? then mask.value[i] else 13 <= i <= 28
  }

  /** Some submitted bit lies outside the mask. */
  predicate RollsTooFar(bits: Option<Word>, mask: Option<Word>) {
    bits.Some? && exists i :: 0 <= i < 32 && bits.value[i] && !MayRoll(mask, i)
  }

  /** Bit by bit: what the miner sent where it may roll, the template's elsewhere. */
  ghost predicate IsRolled(version: nat, base: Word, bits: Option<Word>, mask: Option<Word>) {
    && U32(version)
    && forall i :: 0 <= i < 32 ==>
         (Bit(version, i) <==> if bits.Some? && MayRoll(mask, i) then bits.value[i] else base[i])
  }

  function MaskOf(mask: Option<Word>): Word { if mask.Some? then mask.value else VersionRollingMask() }

  /** `resolve_version`. */
  function ResolveVersion(base: Word, bits: Option<Word>, mask: Option<Word>): Option<Word> {
    match bits
    case None => Some(base)
    case Some(b) => Roll(base, b, MaskOf(mask))
  }

  function Roll(base: Word, b: Word, m: Word): Option<Word> {
    if And(b, Not(m)) != Zero() then None else Some(Or(And(base, Not(m)), And(b, m)))
  }

  lemma RollBits(base: Word, b: Word, m: Word)
    ensures Roll(base, b, m).Some? <==> forall i :: 0 <= i < 32 && b[i] ==> m[i]
    ensures Roll(base, b, m).Some? ==>
      forall i :: 0 <= i < 32 ==> Roll(base, b, m).value[i] == if m[i] then b[i] else base[i]
  {
    if forall i :: 0 <= i < 32 && b[i] ==> m[i] {
      assert And(b, Not(m)) == Zero();
    } else {
      var i :| 0 <= i < 32 && b[i] && !m[i];
      assert And(b, Not(m))[i] && !Zero()[i];
    }
  }

  /** The version is refused exactly when some submitted bit lies outside the mask;
      otherwise, as the number that goes into the header, each bit is the miner's where
      the mask allows it and the template's elsewhere. */
  lemma VersionRolls(base: Word, bits: Option<Word>, mask: Option<Word>)
    ensures ResolveVersion(base, bits, mask).None? <==> RollsTooFar(bits, mask)
    ensures ResolveVersion(base, bits, mask).Some? ==>
      IsRolled(Number(ResolveVersion(base, bits, mask).value), base, bits, mask)
  {
    var (r, m) := (ResolveVersion(base, bits, mask), MaskOf(mask));
    assert forall i :: 0 <= i < 32 ==> m[i] == MayRoll(mask, i);
    if bits.Some? {
      RollBits(base, bits.value, m);
    }
    if r.Some? {
      WordIsU32(r.value);
      forall i | 0 <= i < 32 ensures Bit(Number(r.value), i) <==> r.value[i] {
        NumberBits(r.value, i);
      }
    }
  }

  // ----- The header -----

  datatype Fields = Fields(version: nat, prevBlock: seq<byte>, merkleRoot: seq<byte>, ntime: nat, bits: nat, nonce: nat)

  predicate U32(n: nat) { n < 0x1_0000_0000 }

  predicate ValidFields(f: Fields) {
    U32(f.version) && |f.prevBlock| == 32 && |f.merkleRoot| == 32 && U32(f.ntime) && U32(f.bits) && U32(f.nonce)
  }

  function Le4(n: nat): (s: seq<byte>)
    requires U32(n)
    ensures |s| == 4 && LeNat(s) == n
  {
    Widths();
    LeFixed(n, 4)
  }

  /** A node reading the 80 bytes. */
  function ParseHeader(h: seq<byte>): Fields
    requires |h| == 80
  {
    Fields(LeNat(h[..4]), h[4..36], h[36..68], LeNat(h[68..72]), LeNat(h[72..76]), LeNat(h[76..]))
  }

  lemma ParseParts(v: seq<byte>, p: seq<byte>, m: seq<byte>, t: seq<byte>, b: seq<byte>, n: seq<byte>)
    requires |v| == |t| == |b| == |n| == 4 && |p| == |m| == 32
    ensures ParseHeader(v + p + m + t + b + n) == Fields(LeNat(v), p, m, LeNat(t), LeNat(b), LeNat(n))
  {
    var a := v + p;
    var c := a + m;
    var d := c + t;
    var e := d + b;
    assert a[..4] == v && a[4..36] == p;
    Kept(a, m, 4, 36);
    Kept(c, t, 4, 36);
    Kept(c, t, 36, 68);
    Kept(d, b, 4, 36);
    Kept(d, b, 36, 68);
    Kept(d, b, 68, 72);
    Kept(e, n, 4, 36);
    Kept(e, n, 36, 68);
    Kept(e, n, 68, 72);
    Kept(e, n, 72, 76);
  }

  /** Appending keeps what is there and adds what is new. */
  lemma Kept(x: seq<byte>, y: seq<byte>, i: nat, j: nat)
    requires 4 <= i <= j <= |x|
    ensures (x + y)[i..j] == x[i..j] && (x + y)[..4] == x[..4]
    ensures (x + y)[|x|..] == y && (x + y)[|x|..|x| + |y|] == y
  {
  }

  /** Writing right behind what is already there appends to it. */
  lemma Frontier(t: seq<byte>, done: seq<byte>, e: seq<byte>)
    requires |done| + |e| <= |t| && t[..|done|] == done
    ensures Overwrite(t, |done|, e)[..|done| + |e|] == done + e
  {
  }

  method AppendAt(a: array<byte>, done: seq<byte>, e: seq<byte>) returns (longer: seq<byte>)
    requires |done| + |e| <= a.Length && a[..|done|] == done
    modifies a
    ensures longer == done + e && |longer| <= a.Length && a[..|longer|] == longer
  {
    Frontier(a[..], done, e);
    CopyInto(a, |done|, e);
    longer := done + e;
    assert a[..|longer|] == a[..][..|longer|];
  }

  /** `build_header`: a node reads back exactly the fields, the previous block in
      internal order. */
  method BuildHeader(version: nat, stratumPrevHash: seq<byte>, merkleRoot: seq<byte>, ntime: nat, bits: nat, nonce: nat)
    returns (header: seq<byte>)
    requires |stratumPrevHash| == 32
    requires ValidFields(Fields(version, SwapWords(stratumPrevHash), merkleRoot, ntime, bits, nonce))
    ensures |header| == 80
    ensures ParseHeader(header) == Fields(version, SwapWords(stratumPrevHash), merkleRoot, ntime, bits, nonce)
  {
    var prev := StratumPrevHashToInternal(stratumPrevHash);
    var (v, t, b, n) := (Le4(version), Le4(ntime), Le4(bits), Le4(nonce));
    header := FillHeader(v, prev.value, merkleRoot, t, b, n);
    ParseParts(v, prev.value, merkleRoot, t, b, n);
  }

  method FillHeader(v: seq<byte>, p: seq<byte>, m: seq<byte>, t: seq<byte>, b: seq<byte>, n: seq<byte>)
    returns (header: seq<byte>)
    requires |v| == |t| == |b| == |n| == 4 && |p| == |m| == 32
    ensures |header| == 80 && header == v + p + m + t + b + n
  {
    var h := new byte[80](_ => 0);
    var done := AppendAt(h, [], v);
    assert done == v;
    done := AppendAt(h, done, p);
    done := AppendAt(h, done, m);
    done := AppendAt(h, done, t);
    done := AppendAt(h, done, b);
    done := AppendAt(h, done, n);
    header := h[..];
    assert header == h[..80];
  }

  // ----- The block -----

  function Concat(txs: seq<seq<byte>>): seq<byte> {
    if txs == [] then [] else Concat(txs[..|txs| - 1]) + txs[|txs| - 1]
  }

  /** `assemble_block_hex`, before hex: a node reads the header, the right number of
      transactions, and then the coinbase and the template's in order. */
  method AssembleBlock(header: seq<byte>, coinbase: seq<byte>, txs: seq<seq<byte>>) returns (block: seq<byte>)
    requires |header| == 80 && 1 + |txs| <= U64_MAX
    ensures |block| >= 80 && block[..80] == header
    ensures DecodeVarint(block[80..]) == Value(1 + |txs|, coinbase + Concat(txs))
  {
    var count := EncodeVarint(1 + |txs|);
    var head := header + count + coinbase;
    block := head;
    for i := 0 to |txs|
      invariant block == head + Concat(txs[..i])
    {
      assert txs[..i + 1][..i] == txs[..i];
      block := block + txs[i];
    }
    assert txs[..|txs|] == txs;
    BlockParts(header, count, coinbase, Concat(txs));
    VarintRoundTrip(1 + |txs|, coinbase + Concat(txs));
  }

  lemma BlockParts(header: seq<byte>, count: seq<byte>, coinbase: seq<byte>, rest: seq<byte>)
    requires |header| == 80
    ensures var block := header + count + coinbase + rest;
            block[..80] == header && block[80..] == count + (coinbase + rest)
  {
  }
}
