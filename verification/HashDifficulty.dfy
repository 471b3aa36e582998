/** The difficulty credited to a hash (src/bitcoin/template.rs).

    `hash_to_difficulty` keeps eight significant bytes and floors a quotient
    before shifting it back, so it is an estimate. The bounds say how good; the
    last theorem says for exactly which share difficulties the estimate is never
    below the difficulty the hash was accepted at. */
module HashDifficulty {
  import opened Arith
  import opened Bytes
  import opened Wrappers
  import opened Target

  const DIFF1_SIG: nat := 0xFFFF_0000_0000_0000

  function LeadingZeroCount(be: seq<byte>): (n: nat)
    ensures n <= |be|
    ensures forall i :: 0 <= i < n ==> be[i] == 0
    ensures n < |be| ==> be[n] != 0
  {
    if be == [] || be[0] != 0 then 0 else 1 + LeadingZeroCount(be[1..])
  }

  /** Index of the first non-zero byte, 31 when there is none. */
  function FirstNonZero(be: seq<byte>): (nz: nat)
    requires |be| == 32
    ensures nz <= 31
  {
    if LeadingZeroCount(be) == 32 then 31 else LeadingZeroCount(be)
  }

  /** The eight bytes from `nz`, left-aligned into a `u64`. */
  function TopWord(be: seq<byte>, nz: nat): nat
    requires |be| == 32 && nz <= 31
  {
    if nz <= 24 then BeNat(be[nz..nz + 8]) else BeNat(be[nz..]) * Pow256(nz - 24)
  }

  /** The shift back to full scale, from the quotient of the leading words. */
  function Rescale(ratio: nat, nz: nat): int {
    if nz >= 12 then U64_MAX
    else if nz >= 4 then
      if ratio > U64_MAX / Pow256(nz - 4) then U64_MAX else (ratio * Pow256(nz - 4)) % (U64_MAX + 1)
    else ratio / Pow256(4 - nz)
  }

  /** The quotient of the leading words. */
  function Ratio(sig: nat): (r: nat)
    requires sig > 0
    ensures r * sig <= DIFF1_SIG < (r + 1) * sig
  {
    DivMod(DIFF1_SIG, sig);
    DIFF1_SIG / sig
  }

  /** What `hash_to_difficulty` returns, for the hash in big-endian order. */
  function DifficultyOf(be: seq<byte>): int
    requires |be| == 32
  {
    var nz := FirstNonZero(be);
    var sig := TopWord(be, nz);
    if sig == 0 then U64_MAX else Rescale(Ratio(sig), nz)
  }

  /** `hash_to_difficulty`, with the `u64` shifts of its loop written out: the
      eight-byte accumulator never overflows. */
  method HashToDifficulty(hash: seq<byte>) returns (difficulty: int)
    requires |hash| == 32
    ensures difficulty == DifficultyOf(Reverse(hash))
  {
    var be := Reverse(hash);
    var nz := FirstNonZero(be);
    var sig := ReadTopWord(be, nz);
    difficulty := if sig == 0 then U64_MAX else Rescale(Ratio(sig), nz);
  }

  method ReadTopWord(be: seq<byte>, nz: nat) returns (sig: nat)
    requires |be| == 32 && nz <= 31
    ensures sig == TopWord(be, nz)
  {
    var take := if 8 < 32 - nz then 8 else 32 - nz;
    sig := 0;
    for j := 0 to take
      invariant sig == BeNat(be[nz..nz + j])
    {
      AccumulatorFits(be[nz..nz + j]);
      assert be[nz..nz + j + 1][..j] == be[nz..nz + j];
      sig := (sig * 256) % (U64_MAX + 1) + be[nz + j];
    }
    AlignmentFits(be[nz..nz + take]);
    sig := (sig * Pow256(8 - take)) % (U64_MAX + 1);
    if nz > 24 {
      assert be[nz..nz + take] == be[nz..];
    }
  }

  lemma AccumulatorFits(s: seq<byte>)
    requires |s| < 8
    ensures BeNat(s) * 256 <= U64_MAX
  {
    BeNatBound(s);
    Pow256Mono(|s|, 7);
    Pow256Values();
  }

  lemma AlignmentFits(s: seq<byte>)
    requires |s| <= 8
    ensures BeNat(s) * Pow256(8 - |s|) <= U64_MAX
  {
    BeNatBound(s);
    Pow256Add(|s|, 8 - |s|);
    Pow256Values();
    MulLe(BeNat(s) + 1, Pow256(|s|), Pow256(8 - |s|));
  }

  // ----- Two-sided bound -----

  lemma LeadingZeros(be: seq<byte>, nz: nat)
    requires |be| == 32 && nz <= 32
    requires forall i :: 0 <= i < nz ==> be[i] == 0
    ensures BeNat(be) == BeNat(be[nz..])
  {
    assert be == Zeros(nz) + be[nz..];
    BeNatConcat(Zeros(nz), be[nz..]);
    BeNatZeros(nz);
  }

  /** The leading word of a hash and what it says about the whole. */
  ghost predicate Leading(h: nat, nz: nat, sig: nat)
    requires nz <= 24
  {
    && Pow256(7) <= sig < Pow256(8)
    && sig * Pow256(24 - nz) <= h < (sig + 1) * Pow256(24 - nz)
  }

  lemma LeadingWord(be: seq<byte>, nz: nat)
    requires |be| == 32 && nz <= 24
    requires (forall i :: 0 <= i < nz ==> be[i] == 0) && be[nz] != 0
    ensures Leading(BeNat(be), nz, TopWord(be, nz))
  {
    LeadingZeros(be, nz);
    var s := be[nz..];
    assert be[nz..nz + 8] == s[..8];
    SplitWord(s, 24 - nz);
    WordRange(s[..8]);
  }

  lemma SplitWord(s: seq<byte>, n: nat)
    requires |s| == 8 + n
    ensures BeNat(s[..8]) * Pow256(n) <= BeNat(s) < (BeNat(s[..8]) + 1) * Pow256(n)
  {
    var (top, low) := (s[..8], s[8..]);
    assert s == top + low;
    BeNatConcat(top, low);
    BeNatBound(low);
    Within(BeNat(top), Pow256(n), BeNat(low));
  }

  lemma Within(t: nat, p: nat, l: nat)
    requires l < p
    ensures t * p <= t * p + l < (t + 1) * p
  {
  }

  lemma WordRange(top: seq<byte>)
    requires |top| == 8 && top[0] != 0
    ensures Pow256(7) <= BeNat(top) < Pow256(8)
  {
    BeNatBound(top);
    BeNatHead(top);
    MulLe(1, top[0], Pow256(7));
  }

  lemma ZeroWord(be: seq<byte>)
    requires |be| == 32
    ensures TopWord(be, FirstNonZero(be)) == 0 <==> BeNat(be) == 0
  {
    var nz := FirstNonZero(be);
    LeadingZeros(be, nz);
    if be[nz] == 0 {
      assert be == Zeros(32);
      assert be[nz..] == Zeros(32 - nz);
      BeNatZeros(32 - nz);
    } else if nz <= 24 {
      LeadingWord(be, nz);
      MulLe(1, TopWord(be, nz), Pow256(24 - nz));
    } else {
      BeNatHead(be[nz..]);
      MulLe(1, be[nz], Pow256(31 - nz));
      MulLe(1, BeNat(be[nz..]), Pow256(nz - 24));
    }
  }

  lemma SmallRatio(sig: nat)
    requires sig >= Pow256(7)
    ensures Ratio(sig) <= 255
  {
    Pow256Values();
    if Ratio(sig) >= 256 {
      MulLe(256, Ratio(sig), sig);
      assert false;
    }
  }

  /** For a hash whose first non-zero byte is at 4..11 nothing saturates. */
  lemma NoOverflow(ratio: nat, nz: nat)
    requires ratio <= 255 && 4 <= nz < 12
    ensures Rescale(ratio, nz) == ratio * Pow256(nz - 4)
  {
    var p := Pow256(nz - 4);
    Pow256Mono(nz - 4, 7);
    Pow256Values();
    MulLe(ratio, 255, p);
    FloorBound(ratio, U64_MAX, p);
  }

  lemma ShiftedOut(ratio: nat, nz: nat)
    requires ratio <= 255 && nz < 4
    ensures Rescale(ratio, nz) == 0
  {
    Pow256Mono(1, 4 - nz);
    QuotientOf(ratio, 0, Pow256(4 - nz), ratio);
  }

  /** A power with its exponent given by name, so it stays symbolic. */
  lemma Diff1Split(a: nat, b: nat)
    requires a + b == 20
    ensures Diff1() == DIFF1_SIG * (Pow256(a) * Pow256(b))
  {
    Pow256Add(a, b);
    Pow256Values();
    Pow256Add(6, 20);
  }

  /** From the flooring of the leading word and of the quotient: never too low. */
  lemma QuotientFloor(h: nat, sig: nat, p: nat, q: nat, n: nat)
    requires n * sig > DIFF1_SIG && sig * q <= h && 0 < p * q
    ensures (n * p) * h > DIFF1_SIG * (p * q)
  {
    calc {
      (n * p) * h;
    >= { MulLe(sig * q, h, n * p); }
      (n * p) * (sig * q);
    == { MulRearrange(n, p, sig, q); }
      (n * sig) * (p * q);
    >= { MulLe(DIFF1_SIG + 1, n * sig, p * q); }
      (DIFF1_SIG + 1) * (p * q);
    >
      DIFF1_SIG * (p * q);
    }
  }

  /** ... and high by at most one part in `sig`. */
  lemma QuotientCeiling(h: nat, sig: nat, p: nat, q: nat, r: nat)
    requires r * sig <= DIFF1_SIG && h <= (sig + 1) * q
    ensures ((r * p) * h) * sig <= (DIFF1_SIG * (p * q)) * (sig + 1)
  {
    var t, x := sig + 1, p * q;
    calc {
      (r * p) * h;
    <= { MulLe(h, t * q, r * p); }
      (r * p) * (t * q);
    == { MulRearrange(r, p, t, q); }
      (r * t) * x;
    }
    calc {
      ((r * p) * h) * sig;
    <= { MulLe((r * p) * h, (r * t) * x, sig); }
      ((r * t) * x) * sig;
    == { MulAssoc(r * t, x, sig); assert x * sig == sig * x; }
      (r * t) * (sig * x);
    == { MulRearrange(r, t, sig, x); }
      (r * sig) * (t * x);
    <= { MulLe(r * sig, DIFF1_SIG, t * x); }
      DIFF1_SIG * (t * x);
    == { assert t * x == x * t; MulAssoc(DIFF1_SIG, x, t); }
      (DIFF1_SIG * x) * t;
    }
  }

  /** `d` is above DIFF1 / h - p and at most (DIFF1 / h)(1 + 2^-56). */
  ghost predicate Bracketed(h: nat, d: int, p: nat) {
    (d + p) * h > Diff1() && d * h * Pow256(7) <= Diff1() * (Pow256(7) + 1)
  }

  /** `hash_to_difficulty` against the true quotient DIFF1 / H, for every hash:
      zero above difficulty 1/256, saturated from 2^64 up, and in between low by
      less than one unit of its last kept byte and high by at most 2^-56 of it. */
  lemma HashDifficultyBounds(be: seq<byte>)
    requires |be| == 32
    ensures FirstNonZero(be) < 4 ==> DifficultyOf(be) == 0
    ensures FirstNonZero(be) >= 12 || BeNat(be) == 0 ==> DifficultyOf(be) == U64_MAX
    ensures 4 <= FirstNonZero(be) < 12 ==> Bracketed(BeNat(be), DifficultyOf(be), Pow256(FirstNonZero(be) - 4))
  {
    ZeroWord(be);
    if FirstNonZero(be) < 12 {
      WordCase(be);
      if FirstNonZero(be) >= 4 {
        MiddleCase(be);
      }
    }
  }

  lemma MiddleCase(be: seq<byte>)
    requires |be| == 32 && 4 <= FirstNonZero(be) < 12
    ensures Bracketed(BeNat(be), DifficultyOf(be), Pow256(FirstNonZero(be) - 4))
  {
    WordCase(be);
    WordBrackets(BeNat(be), FirstNonZero(be), TopWord(be, FirstNonZero(be)));
  }

  /** A hash with at most 11 leading zero bytes, through its leading word. */
  lemma WordCase(be: seq<byte>)
    requires |be| == 32 && FirstNonZero(be) < 12
    ensures Leading(BeNat(be), FirstNonZero(be), TopWord(be, FirstNonZero(be)))
    ensures FirstNonZero(be) < 4 ==> DifficultyOf(be) == 0
    ensures FirstNonZero(be) >= 4 ==>
              DifficultyOf(be) == Ratio(TopWord(be, FirstNonZero(be))) * Pow256(FirstNonZero(be) - 4)
  {
    var nz := FirstNonZero(be);
    LeadingWord(be, nz);
    var sig := TopWord(be, nz);
    SmallRatio(sig);
    if nz < 4 {
      ShiftedOut(Ratio(sig), nz);
    } else {
      NoOverflow(Ratio(sig), nz);
    }
  }

  lemma WordBrackets(h: nat, nz: nat, sig: nat)
    requires 4 <= nz < 12 && Leading(h, nz, sig)
    ensures Bracketed(h, Ratio(sig) * Pow256(nz - 4), Pow256(nz - 4))
  {
    Diff1Split(nz - 4, 24 - nz);
    var (d, w) := (Diff1(), Pow256(7));
    Brackets(h, sig, Pow256(nz - 4), Pow256(24 - nz), Ratio(sig), d, w);
    BracketedBy(h, Ratio(sig) * Pow256(nz - 4), Pow256(nz - 4), d, w);
  }

  lemma BracketedBy(h: nat, x: int, p: nat, d: nat, w: nat)
    requires d == Diff1() && w == Pow256(7) && (x + p) * h > d && x * h * w <= d * (w + 1)
    ensures Bracketed(h, x, p)
  {
  }

  lemma Brackets(h: nat, sig: nat, p: nat, q: nat, r: nat, d: nat, w: nat)
    requires 0 < w <= sig && r == Ratio(sig) && d == DIFF1_SIG * (p * q)
    requires sig * q <= h < (sig + 1) * q && 0 < p * q
    ensures (r * p + p) * h > d
    ensures r * p * h * w <= d * (w + 1)
  {
    QuotientFloor(h, sig, p, q, r + 1);
    assert r * p + p == (r + 1) * p;
    QuotientCeiling(h, sig, p, q, r);
    LooserSlack(r * p * h, d, sig, w);
  }

  /** One part in `s` is at most one part in any smaller `w`. */
  lemma LooserSlack(x: nat, d: nat, s: nat, w: nat)
    requires x * s <= d * (s + 1) && 0 < w <= s
    ensures x * w <= d * (w + 1)
  {
    if x > d {
      assert x * s == d * s + (x - d) * s;
      assert d * (s + 1) == d * s + d;
      MulLe(w, s, x - d);
      assert x * w == d * w + (x - d) * w;
      assert d * (w + 1) == d * w + d;
    } else {
      MulLe(x, d, w);
    }
  }

  // ----- When is the estimate at least the accepted difficulty? -----

  /** The least multiple count of `p` reaching `d`. */
  function CeilDiv(d: nat, p: nat): (c: nat)
    requires d > 0 && p > 0
    ensures c >= 1 && (c - 1) * p < d <= c * p
  {
    DivMod(d - 1, p);
    assert (d - 1) / p >= 0;
    (d - 1) / p + 1
  }

  lemma RatioReaches(sig: nat, p: nat, d: nat)
    requires sig > 0 && p > 0 && d > 0
    ensures Ratio(sig) * p >= d <==> CeilDiv(d, p) * sig <= DIFF1_SIG
  {
    var r, c := Ratio(sig), CeilDiv(d, p);
    if c <= r {
      MulLe(c, r, p);
      MulLe(c, r, sig);
    } else {
      MulLe(r, c - 1, p);
      MulLe(r + 1, c, sig);
    }
  }

  /** `HashDifficultyBounds`, per hash and per difficulty. */
  lemma ReachesIff(be: seq<byte>, d: nat)
    requires |be| == 32 && 4 <= FirstNonZero(be) < 12 && d > 0
    ensures TopWord(be, FirstNonZero(be)) > 0
    ensures DifficultyOf(be) >= d
       <==> CeilDiv(d, Pow256(FirstNonZero(be) - 4)) * TopWord(be, FirstNonZero(be)) <= DIFF1_SIG
  {
    WordCase(be);
    RatioReaches(TopWord(be, FirstNonZero(be)), Pow256(FirstNonZero(be) - 4), d);
  }

  /** No hash accepted at `d` is credited below `d`. */
  ghost predicate NeverUnderstated(d: nat) {
    forall hash: seq<byte> | |hash| == 32 && LeNat(hash) * d <= Diff1() :: DifficultyOf(Reverse(hash)) >= d
  }

  /** A check on the difficulty alone, with 2^56 = Pow256(7). */
  ghost predicate Safe(d: nat) {
    || d > DIFF1_SIG
    || (d >= Pow256(7) && CeilDiv(d, Pow256(7)) * ((DIFF1_SIG * Pow256(7)) / d) <= DIFF1_SIG)
  }

  lemma LeadingFloor(h: nat, nz: nat, sig: nat)
    requires nz <= 24 && Leading(h, nz, sig)
    ensures h >= Pow256(31 - nz)
  {
    var (w, q) := (Pow256(7), Pow256(24 - nz));
    Pow256Add(7, 24 - nz);
    WordFloor(h, sig, w, q);
  }

  lemma WordFloor(h: nat, sig: nat, w: nat, q: nat)
    requires w <= sig && sig * q <= h
    ensures w * q <= h
  {
    MulLe(w, sig, q);
  }

  lemma FirstAtLeast(be: seq<byte>, nz: nat)
    requires |be| == 32 && nz == FirstNonZero(be) < 12
    ensures BeNat(be) >= Pow256(31 - nz)
  {
    LeadingWord(be, nz);
    LeadingFloor(BeNat(be), nz, TopWord(be, nz));
  }

  lemma AtLeast(be: seq<byte>, k: nat)
    requires |be| == 32 && FirstNonZero(be) <= k < 12
    ensures BeNat(be) >= Pow256(31 - k)
  {
    var nz := FirstNonZero(be);
    FirstAtLeast(be, nz);
    Pow256Mono(31 - k, 31 - nz);
  }

  /** A large hash is not accepted. */
  lemma LargeIsRejected(h: nat, d: nat, x: nat, y: nat)
    requires h >= x > 0 && d > 0xFFFF * y
    ensures h * d > 0xFFFF * (x * y)
  {
    MulLe(x, h, d);
    MulLe(0xFFFF * y + 1, d, x);
    assert (0xFFFF * y + 1) * x == 0xFFFF * (x * y) + x;
  }

  /** The position of the first non-zero byte of an accepted hash. */
  lemma AcceptedPosition(be: seq<byte>, d: nat, k: nat)
    requires |be| == 32 && BeNat(be) * d <= Diff1()
    requires 5 <= k < 12 && d > 0xFFFF * Pow256(k - 5)
    ensures FirstNonZero(be) > k
  {
    if FirstNonZero(be) <= k {
      AtLeast(be, k);
      Pow256Add(31 - k, k - 5);
      LargeIsRejected(BeNat(be), d, Pow256(31 - k), Pow256(k - 5));
      assert false;
    }
  }

  /** Accepted with the word at position 11: the word itself is accepted. */
  lemma AcceptedWord(h: nat, sig: nat, q: nat, w: nat, d: nat)
    requires sig * q <= h && h * d <= DIFF1_SIG * (w * q) && q > 0
    ensures sig * d <= DIFF1_SIG * w
  {
    MulLe(sig * q, h, d);
    assert (sig * q) * d == (sig * d) * q;
    assert DIFF1_SIG * (w * q) == (DIFF1_SIG * w) * q;
    if sig * d > DIFF1_SIG * w {
      MulLe(DIFF1_SIG * w + 1, sig * d, q);
      assert false;
    }
  }

  lemma SafeHash(be: seq<byte>, d: nat)
    requires |be| == 32 && 1 <= d <= U64_MAX && Safe(d) && BeNat(be) * d <= Diff1()
    ensures DifficultyOf(be) >= d
  {
    ZeroWord(be);
    Pow256Values();
    if d > DIFF1_SIG {
      AcceptedPosition(be, d, 11);
    } else {
      AcceptedPosition(be, d, 10);
      if FirstNonZero(be) == 11 {
        SafeWord(be, d);
      }
    }
  }

  lemma SafeWord(be: seq<byte>, d: nat)
    requires |be| == 32 && FirstNonZero(be) == 11 && d >= 1 && BeNat(be) * d <= Diff1()
    requires CeilDiv(d, Pow256(7)) * ((DIFF1_SIG * Pow256(7)) / d) <= DIFF1_SIG
    ensures DifficultyOf(be) >= d
  {
    WordCase(be);
    ReachesIff(be, d);
    Diff1Split(7, 13);
    SafeQuotient(BeNat(be), TopWord(be, 11), Pow256(13), Pow256(7), d, CeilDiv(d, Pow256(7)));
  }

  lemma SafeQuotient(h: nat, sig: nat, q: nat, w: nat, d: nat, c: nat)
    requires sig * q <= h && h * d <= DIFF1_SIG * (w * q) && q > 0 && d > 0
    requires c * ((DIFF1_SIG * w) / d) <= DIFF1_SIG
    ensures c * sig <= DIFF1_SIG
  {
    AcceptedWord(h, sig, q, w, d);
    FloorBound(sig, DIFF1_SIG * w, d);
    MulLe(sig, (DIFF1_SIG * w) / d, c);
  }

  /** The hash with eleven zero bytes, the word `sig`, then zeros. */
  function WordHash(sig: nat): (be: seq<byte>)
    requires sig < Pow256(8)
    ensures |be| == 32
  {
    Zeros(11) + BeBytes(sig, 8) + Zeros(13)
  }

  lemma WordHashValue(sig: nat)
    requires Pow256(7) <= sig < Pow256(8)
    ensures BeNat(WordHash(sig)) == sig * Pow256(13)
    ensures FirstNonZero(WordHash(sig)) == 11
    ensures TopWord(WordHash(sig), 11) == sig
  {
    var word := BeBytes(sig, 8);
    PlaceBytes(11, word, 13);
    TopByteSet(word);
    WordPosition(WordHash(sig), word);
  }

  lemma TopByteSet(word: seq<byte>)
    requires |word| == 8 && BeNat(word) >= Pow256(7)
    ensures word[0] != 0
  {
    BeNatHead(word);
    BeNatBound(word[1..]);
  }

  lemma WordPosition(be: seq<byte>, word: seq<byte>)
    requires |word| == 8 && word[0] != 0 && be == Zeros(11) + word + Zeros(13)
    ensures FirstNonZero(be) == 11 && TopWord(be, 11) == BeNat(word)
  {
    assert be[11] == word[0];
    assert be[11..19] == word;
  }

  lemma ScaleAccepted(sig: nat, q: nat, w: nat, d: nat)
    requires sig * d <= DIFF1_SIG * w
    ensures (sig * q) * d <= DIFF1_SIG * (w * q)
  {
    MulLe(sig * d, DIFF1_SIG * w, q);
    MulAssoc(DIFF1_SIG, w, q);
    assert (sig * q) * d == (sig * d) * q;
  }

  /** A leading word that is accepted at `d` and credited below it. */
  lemma UnderstatedBy(sig: nat, d: nat)
    requires Pow256(7) <= sig < Pow256(8) && d >= 1
    requires sig * d <= DIFF1_SIG * Pow256(7) && CeilDiv(d, Pow256(7)) * sig > DIFF1_SIG
    ensures BeNat(WordHash(sig)) * d <= Diff1() && DifficultyOf(WordHash(sig)) < d
  {
    WordHashValue(sig);
    ReachesIff(WordHash(sig), d);
    Diff1Split(7, 13);
    ScaleAccepted(sig, Pow256(13), Pow256(7), d);
  }

  lemma Refutes(be: seq<byte>, d: nat)
    requires |be| == 32 && BeNat(be) * d <= Diff1() && DifficultyOf(be) < d
    ensures !NeverUnderstated(d)
  {
    var hash := Reverse(be);
    ReverseSwapsEndianness(be);
    assert Reverse(hash) == be;
  }

  lemma UnsafeWitness(d: nat)
    requires 1 <= d <= U64_MAX && !Safe(d)
    ensures !NeverUnderstated(d)
  {
    var w := Pow256(7);
    Pow256Values();
    if d < w {
      assert (DIFF1_SIG + 1) * d == DIFF1_SIG * d + d;
      MulLe(d, w - 1, DIFF1_SIG);
      UnderstatedBy(DIFF1_SIG + 1, d);
      Refutes(WordHash(DIFF1_SIG + 1), d);
    } else {
      var sig := (DIFF1_SIG * w) / d;
      FloorBound(w, DIFF1_SIG * w, d);
      FloorBound(sig, DIFF1_SIG * w, d);
      MulLe(w, d, sig);
      UnderstatedBy(sig, d);
      Refutes(WordHash(sig), d);
    }
  }

  /** The comment on `hash_difficulty` promises at least the assigned difficulty.
      That holds for every accepted hash exactly when the assigned difficulty
      passes `Safe`; in particular for no difficulty below 2^56. */
  lemma NeverUnderstatedIff(d: nat)
    requires 1 <= d <= U64_MAX
    ensures NeverUnderstated(d) <==> Safe(d)
  {
    if Safe(d) {
      forall hash: seq<byte> | |hash| == 32 && LeNat(hash) * d <= Diff1()
        ensures DifficultyOf(Reverse(hash)) >= d
      {
        ReverseSwapsEndianness(hash);
        SafeHash(Reverse(hash), d);
      }
    } else {
      UnsafeWitness(d);
    }
  }

  /** One input for every difficulty below 2^56: this hash passes the share test
      there and is credited with nothing at all. */
  lemma CreditedWithNothing(d: nat)
    requires 1 <= d < Pow256(7)
    ensures Pow256(7) <= DIFF1_SIG + 1 < Pow256(8)
    ensures BeNat(WordHash(DIFF1_SIG + 1)) * d <= Diff1()
    ensures DifficultyOf(WordHash(DIFF1_SIG + 1)) == 0
  {
    Pow256Values();
    var (sig, w) := (DIFF1_SIG + 1, Pow256(7));
    assert sig * d == DIFF1_SIG * d + d;
    MulLe(d, w - 1, DIFF1_SIG);
    UnderstatedBy(sig, d);
    WordCase(WordHash(sig));
    WordHashValue(sig);
    assert Ratio(sig) == 0;
  }
}
