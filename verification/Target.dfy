/** Difficulty, targets and the share test (src/bitcoin/template.rs,
    src/mining/validator.rs, src/protocol/sv2/job.rs).

    A target is a 32-byte big-endian array obtained by long division; the share
    test reverses the hash and compares arrays. The claim is that all of this is
    one multiplication: `hash * difficulty <= DIFF1`. */
module Target {
  import opened Arith
  import opened Bytes
  import opened Wrappers

  /** 0xFFFF * 2^208, the difficulty-1 target, as a number. */
  function Diff1(): nat { 0xFFFF * Pow256(26) }

  function Diff1Target(): seq<byte> { [0, 0, 0, 0, 0xff, 0xff] + Zeros(26) }

  lemma LeadingBytes()
    ensures BeNat([0, 0, 0, 0, 0xff, 0xff]) == 0xFFFF
  {
    BeNatConcat(Zeros(4), [0xff, 0xff]);
    BeNatZeros(4);
    assert Zeros(4) + [0xff, 0xff] == [0, 0, 0, 0, 0xff, 0xff];
    assert [0xff, 0xff][..1] == [0xff] && [0xff][..0] == [];
  }

  lemma Diff1TargetValue()
    ensures |Diff1Target()| == 32 && BeNat(Diff1Target()) == Diff1()
  {
    BeNatConcat([0, 0, 0, 0, 0xff, 0xff], Zeros(26));
    BeNatZeros(26);
    LeadingBytes();
  }

  /** Difficulty 0 is treated as 1. */
  function Effective(difficulty: nat): nat { if difficulty <= 1 then 1 else difficulty }

  /** `rem << 8` in `u128`: nothing is shifted out of a remainder below 2^64. */
  method ShiftIn(rem: nat, digit: byte) returns (accum: nat)
    requires rem <= U64_MAX
    ensures accum == rem * 256 + digit
  {
    accum := (rem * 256) % U128 + digit;
  }

  /** One digit of the quotient, narrowed to `u8` without loss. */
  method QuotientDigit(accum: nat, divisor: nat) returns (digit: byte, rem: nat)
    requires 0 < divisor && accum < divisor * 256
    ensures accum == digit * divisor + rem && rem < divisor
  {
    var q := accum / divisor;
    rem := accum % divisor;
    assert q < 256 by {
      if q >= 256 {
        FloorBound(256, accum, divisor);
        assert false;
      }
    }
    DivMod(accum, divisor);
    digit := q % 256;
    assert digit == q;
  }

  /** What long division keeps after each digit. */
  ghost predicate Divided(value: seq<byte>, quotient: seq<byte>, divisor: nat, rem: nat) {
    BeNat(value) == BeNat(quotient) * divisor + rem
  }

  lemma DivideDigit(value: seq<byte>, quotient: seq<byte>, divisor: nat, rem: nat, digit: byte, q: byte, r: nat)
    requires Divided(value, quotient, divisor, rem)
    requires rem * 256 + digit == q * divisor + r
    ensures Divided(value + [digit], quotient + [q], divisor, r)
  {
    assert (value + [digit])[..|value|] == value && (quotient + [q])[..|quotient|] == quotient;
    var b := BeNat(quotient);
    assert (b * 256 + q) * divisor == b * divisor * 256 + q * divisor;
  }

  /** `div_be_u256_by_u64`. The `u8` cast and the `u128` shift are written out;
      the quotient is exact because neither ever drops a bit. */
  method DivBeU256ByU64(value: seq<byte>, divisor: nat) returns (quotient: seq<byte>)
    requires |value| == 32 && 0 < divisor <= U64_MAX
    ensures |quotient| == 32
    ensures BeNat(quotient) == BeNat(value) / divisor
  {
    var out := new byte[32](_ => 0);
    var rem: nat := 0;
    for i := 0 to 32
      invariant rem < divisor
      invariant Divided(value[..i], out[..i], divisor, rem)
    {
      ghost var done, before := out[..i], rem;
      var accum := ShiftIn(rem, value[i]);
      var digit;
      digit, rem := QuotientDigit(accum, divisor);
      out[i] := digit;
      DivideDigit(value[..i], done, divisor, before, value[i], digit, rem);
      assert out[..i + 1] == done + [digit];
      assert value[..i + 1] == value[..i] + [value[i]];
    }
    quotient := out[..];
    assert value[..32] == value && out[..32] == quotient;
    DividedQuotient(value, quotient, divisor, rem);
  }

  lemma DividedQuotient(value: seq<byte>, quotient: seq<byte>, divisor: nat, rem: nat)
    requires rem < divisor && Divided(value, quotient, divisor, rem)
    ensures BeNat(quotient) == BeNat(value) / divisor
  {
    QuotientOf(BeNat(value), BeNat(quotient), divisor, rem);
  }

  /** `difficulty_to_target`. */
  method DifficultyToTarget(difficulty: nat) returns (target: seq<byte>)
    requires difficulty <= U64_MAX
    ensures |target| == 32
    ensures BeNat(target) == Diff1() / Effective(difficulty)
  {
    Diff1TargetValue();
    if difficulty <= 1 {
      return Diff1Target();
    }
    target := DivBeU256ByU64(Diff1Target(), difficulty);
  }

  /** `meets_target`: the hash is little-endian, the target big-endian. */
  predicate MeetsTarget(hash: seq<byte>, target: seq<byte>)
    requires |hash| == |target|
  {
    LexLe(Reverse(hash), target)
  }

  lemma MeetsTargetIsNumeric(hash: seq<byte>, target: seq<byte>)
    requires |hash| == |target|
    ensures MeetsTarget(hash, target) <==> LeNat(hash) <= BeNat(target)
  {
    ReverseSwapsEndianness(hash);
    LexIsNumeric(Reverse(hash), target);
  }

  /** The share test of `validate_share_no_dedup`: build the target for the
      difficulty and compare. A share passes exactly when its hash times the
      difficulty does not exceed the difficulty-1 target. */
  method MeetsDifficulty(hash: seq<byte>, difficulty: nat) returns (ok: bool)
    requires |hash| == 32 && difficulty <= U64_MAX
    ensures ok <==> LeNat(hash) * Effective(difficulty) <= Diff1()
  {
    var target := DifficultyToTarget(difficulty);
    ok := MeetsTarget(hash, target);
    MeetsTargetIsNumeric(hash, target);
    FloorBound(LeNat(hash), Diff1(), Effective(difficulty));
  }

  // ----- Stratum V2 -----

  /** `difficulty_to_sv2_target`: the same integer, little-endian. */
  method DifficultyToSv2Target(difficulty: nat) returns (target: seq<byte>)
    requires difficulty <= U64_MAX
    ensures |target| == 32
    ensures LeNat(target) == Diff1() / Effective(difficulty)
  {
    var t := DifficultyToTarget(difficulty);
    ReverseSwapsEndianness(t);
    target := Reverse(t);
  }

  /** `sv2_target_le`. */
  predicate Sv2TargetLe(a: seq<byte>, b: seq<byte>)
    requires |a| == |b|
  {
    LexLe(Reverse(a), Reverse(b))
  }

  lemma Sv2TargetLeIsNumeric(a: seq<byte>, b: seq<byte>)
    requires |a| == |b|
    ensures Sv2TargetLe(a, b) <==> LeNat(a) <= LeNat(b)
  {
    ReverseSwapsEndianness(a);
    ReverseSwapsEndianness(b);
    LexIsNumeric(Reverse(a), Reverse(b));
  }

  /** A higher difficulty never yields an easier Stratum V2 target, and the two
      protocols agree on which hashes pass. */
  method Sv2TargetsOrdered(easy: nat, hard: nat, hash: seq<byte>) returns (te: seq<byte>, th: seq<byte>, sv1: bool)
    requires easy <= hard <= U64_MAX && |hash| == 32
    ensures |te| == |th| == 32 && Sv2TargetLe(th, te)
    ensures sv1 <==> Sv2TargetLe(hash, th)
    ensures sv1 ==> Sv2TargetLe(hash, te)
  {
    te := DifficultyToSv2Target(easy);
    th := DifficultyToSv2Target(hard);
    QuotientAntitone(Diff1(), Effective(easy), Effective(hard));
    Sv2TargetLeIsNumeric(th, te);
    sv1 := MeetsDifficulty(hash, hard);
    FloorBound(LeNat(hash), Diff1(), Effective(hard));
    Sv2TargetLeIsNumeric(hash, th);
    Sv2TargetLeIsNumeric(hash, te);
  }

  /** The target an extended channel is opened with, clamped to the device's
      declared maximum: never easier than either. */
  method ChannelTarget(difficulty: nat, maxTarget: seq<byte>) returns (target: seq<byte>)
    requires difficulty <= U64_MAX && |maxTarget| == 32
    ensures |target| == 32
    ensures LeNat(target) <= LeNat(maxTarget) && LeNat(target) <= Diff1() / Effective(difficulty)
    ensures LeNat(target) == LeNat(maxTarget) || LeNat(target) == Diff1() / Effective(difficulty)
  {
    target := DifficultyToSv2Target(difficulty);
    Sv2TargetLeIsNumeric(target, maxTarget);
    if !Sv2TargetLe(target, maxTarget) {
      target := maxTarget;
    }
  }

  // ----- Compact bits -----

  datatype CompactResult = Ok(target: seq<byte>) | Overflow

  /** Eight bits of exponent, a sign bit the code ignores, 23 bits of mantissa. */
  predicate IsCompact(bits: nat, e: nat, s: nat, m: nat) {
    e < 256 && s <= 1 && m < 0x80_0000 && bits == e * 0x100_0000 + s * 0x80_0000 + m
  }

  /** The number a compact target stands for. */
  function Expanded(e: nat, m: nat): int { if e < 3 then m / Pow256(3 - e) else m * Pow256(e - 3) }

  /** A set mantissa would not fit 32 bytes. */
  ghost predicate TooWide(bits: nat) { exists e: nat, s: nat, m: nat :: IsCompact(bits, e, s, m) && m != 0 && e > 32 }

  function Mantissa(bits: nat): nat { bits % 0x80_0000 }
  function Exponent(bits: nat): nat { bits / 0x100_0000 % 256 }

  lemma CompactParts(bits: nat, e: nat, s: nat, m: nat)
    requires IsCompact(bits, e, s, m)
    ensures Mantissa(bits) == m && Exponent(bits) == e
  {
  }

  lemma CompactExists(bits: nat) returns (s: nat)
    requires bits < 0x1_0000_0000
    ensures IsCompact(bits, Exponent(bits), s, Mantissa(bits))
  {
    s := bits / 0x80_0000 % 2;
  }

  /** `compact_to_target`: exactly `mantissa * 256^(exponent - 3)`, floored for
      exponents below three, or an error when a set mantissa would not fit. */
  method CompactToTarget(bits: nat) returns (r: CompactResult)
    requires bits < 0x1_0000_0000
    ensures r.Overflow? <==> TooWide(bits)
    ensures r.Ok? ==> |r.target| == 32
    ensures r.Ok? ==> forall e: nat, s: nat, m: nat :: IsCompact(bits, e, s, m) ==> BeNat(r.target) == Expanded(e, m)
  {
    var exponent, mantissa := Exponent(bits), Mantissa(bits);
    r := Expand(exponent, mantissa);
    ghost var sign := CompactExists(bits);
    forall e: nat, s: nat, m: nat | IsCompact(bits, e, s, m) ensures e == exponent && m == mantissa {
      CompactParts(bits, e, s, m);
    }
  }

  method Expand(exponent: nat, mantissa: nat) returns (r: CompactResult)
    requires mantissa < 0x80_0000
    ensures r.Overflow? <==> mantissa != 0 && exponent > 32
    ensures r.Ok? ==> |r.target| == 32 && BeNat(r.target) == Expanded(exponent, mantissa)
  {
    if mantissa == 0 {
      BeNatZeros(32);
      return Ok(Zeros(32));
    }
    if exponent <= 3 {
      var digits := LowDigits(exponent, mantissa);
      return Ok(Zeros(29) + digits + Zeros(0));
    }
    var shift := exponent - 3;
    if shift > 29 {
      return Overflow;
    }
    var digits := ThreeBytes(mantissa);
    var offset := 32 - 3 - shift;
    HighExponent(exponent, mantissa, digits, offset, shift);
    r := Ok(Zeros(offset) + digits + Zeros(shift));
  }

  /** A low exponent drops the mantissa's low bytes. */
  method LowDigits(exponent: nat, mantissa: nat) returns (digits: seq<byte>)
    requires mantissa < 0x80_0000 && exponent <= 3
    ensures |digits| == 3 && BeNat(Zeros(29) + digits + Zeros(0)) == Expanded(exponent, mantissa)
  {
    var k := 3 - exponent;
    var value := Quotient(mantissa, Pow256(k));
    digits := ThreeBytes(value);
    LowPlaced(exponent, mantissa, k, value, digits);
  }

  /** A quotient that is no larger than what is divided. */
  method Quotient(n: nat, d: nat) returns (q: nat)
    requires d > 0
    ensures q == n / d && q <= n
  {
    QuotientLe(n, d);
    q := n / d;
  }

  lemma LowPlaced(exponent: nat, mantissa: nat, k: nat, value: nat, digits: seq<byte>)
    requires exponent <= 3 && k == 3 - exponent && value == mantissa / Pow256(k) && BeNat(digits) == value
    ensures BeNat(Zeros(29) + digits + Zeros(0)) == Expanded(exponent, mantissa)
  {
    PlaceBytes(29, digits, 0);
    LowValue(exponent, mantissa, k, value);
  }

  lemma LowValue(exponent: nat, mantissa: nat, k: nat, value: nat)
    requires exponent <= 3 && k == 3 - exponent && value == mantissa / Pow256(k)
    ensures value * Pow256(0) == Expanded(exponent, mantissa)
  {
    if k == 0 {
      assert Pow256(k) == 1;
    }
  }

  lemma HighExponent(exponent: nat, mantissa: nat, digits: seq<byte>, offset: nat, shift: nat)
    requires mantissa != 0 && 3 < exponent && shift == exponent - 3 && BeNat(digits) == mantissa
    ensures BeNat(Zeros(offset) + digits + Zeros(shift)) == Expanded(exponent, mantissa)
  {
    PlaceBytes(offset, digits, shift);
  }

  lemma PlaceBytes(offset: nat, digits: seq<byte>, shift: nat)
    ensures BeNat(Zeros(offset) + digits + Zeros(shift)) == BeNat(digits) * Pow256(shift)
  {
    BeNatConcat(Zeros(offset) + digits, Zeros(shift));
    BeNatConcat(Zeros(offset), digits);
    BeNatZeros(offset);
    BeNatZeros(shift);
  }

  /** The low three bytes of a value, most significant first. */
  function ThreeBytes(v: nat): (w: seq<byte>)
    requires v < 0x80_0000
    ensures |w| == 3 && BeNat(w) == v
  {
    var (high, c: byte) := (v / 256, v % 256);
    var a: byte, b: byte := high / 256, high % 256;
    assert v == (a * 256 + b) * 256 + c;
    ThreeDigits(a, b, c);
    [a, b, c]
  }

  lemma ThreeDigits(a: byte, b: byte, c: byte)
    ensures BeNat([a, b, c]) == (a * 256 + b) * 256 + c
  {
    OneMoreDigit([], a);
    OneMoreDigit([a], b);
    OneMoreDigit([a, b], c);
    assert [] + [a] == [a] && [a] + [b] == [a, b] && [a, b] + [c] == [a, b, c];
  }

  lemma OneMoreDigit(s: seq<byte>, d: byte)
    ensures BeNat(s + [d]) == BeNat(s) * 256 + d
  {
    assert (s + [d])[..|s|] == s;
  }
}
