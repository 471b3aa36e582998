/** Byte strings and the two integers they denote.

    Hashes and targets travel through the pool as 32-byte arrays, sometimes most
    significant byte first and sometimes last. Everything the pool decides about
    them is a statement about `BeNat` and `LeNat`. */
module Bytes {
  import opened Arith

  type byte = b: int | 0 <= b < 256

  const U128: nat := 0x1_0000_0000_0000_0000_0000_0000_0000_0000

  function Pow256(n: nat): (p: nat)
    ensures p >= 1
  {
    if n == 0 then 1 else 256 * Pow256(n - 1)
  }

  /** The value of `s` read most significant byte first. */
  function BeNat(s: seq<byte>): nat {
    if s == [] then 0 else BeNat(s[..|s| - 1]) * 256 + s[|s| - 1]
  }

  /** The value of `s` read least significant byte first. */
  function LeNat(s: seq<byte>): nat {
    if s == [] then 0 else s[0] + 256 * LeNat(s[1..])
  }

  function Reverse<T>(s: seq<T>): (r: seq<T>)
    ensures |r| == |s|
    ensures forall i :: 0 <= i < |s| ==> r[i] == s[|s| - 1 - i]
  {
    seq(|s|, i requires 0 <= i < |s| => s[|s| - 1 - i])
  }

  function Zeros(n: nat): (z: seq<byte>)
    ensures |z| == n
  {
    seq(n, _ => 0)
  }

  /** The order Rust gives two equally long byte arrays. */
  predicate LexLe(a: seq<byte>, b: seq<byte>)
    requires |a| == |b|
  {
    a == [] || a[0] < b[0] || (a[0] == b[0] && LexLe(a[1..], b[1..]))
  }

  lemma {:induction false} Pow256Add(m: nat, n: nat)
    ensures Pow256(m + n) == Pow256(m) * Pow256(n)
  {
    if m > 0 {
      Pow256Add(m - 1, n);
      assert Pow256(m) * Pow256(n) == 256 * (Pow256(m - 1) * Pow256(n));
    }
  }

  lemma {:induction false} Pow256Mono(m: nat, n: nat)
    requires m <= n
    ensures Pow256(m) <= Pow256(n)
  {
    if m < n {
      Pow256Mono(m, n - 1);
    }
  }

  lemma {:induction false} BeNatConcat(a: seq<byte>, b: seq<byte>)
    ensures BeNat(a + b) == BeNat(a) * Pow256(|b|) + BeNat(b)
  {
    if b == [] {
      assert a + b == a;
    } else {
      var b' := b[..|b| - 1];
      BeNatConcat(a, b');
      assert (a + b)[..|a + b| - 1] == a + b';
      assert BeNat(a) * Pow256(|b|) == BeNat(a) * Pow256(|b'|) * 256;
    }
  }

  lemma {:induction false} BeNatBound(s: seq<byte>)
    ensures BeNat(s) < Pow256(|s|)
  {
    if s != [] {
      BeNatBound(s[..|s| - 1]);
    }
  }

  lemma {:induction false} BeNatZeros(n: nat)
    ensures BeNat(Zeros(n)) == 0
  {
    if n > 0 {
      BeNatZeros(n - 1);
      assert Zeros(n)[..n - 1] == Zeros(n - 1);
    }
  }

  lemma BeNatHead(s: seq<byte>)
    requires s != []
    ensures BeNat(s) == s[0] * Pow256(|s| - 1) + BeNat(s[1..])
  {
    assert s == [s[0]] + s[1..];
    BeNatConcat([s[0]], s[1..]);
    assert BeNat([s[0]]) == s[0] by { assert [s[0]][..0] == []; }
  }

  /** Reversing the bytes exchanges the two readings. */
  lemma {:induction false} ReverseSwapsEndianness(s: seq<byte>)
    ensures BeNat(Reverse(s)) == LeNat(s)
    ensures LeNat(Reverse(s)) == BeNat(s)
  {
    ReverseBe(s);
    ReverseBe(Reverse(s));
    assert Reverse(Reverse(s)) == s;
  }

  lemma {:induction false} ReverseBe(s: seq<byte>)
    ensures BeNat(Reverse(s)) == LeNat(s)
  {
    if s != [] {
      ReverseBe(s[1..]);
      assert Reverse(s)[..|s| - 1] == Reverse(s[1..]);
    }
  }

  lemma LeNatBound(s: seq<byte>)
    ensures LeNat(s) < Pow256(|s|)
  {
    ReverseSwapsEndianness(s);
    BeNatBound(Reverse(s));
  }

  lemma {:induction false} LeNatConcat(a: seq<byte>, b: seq<byte>)
    ensures LeNat(a + b) == LeNat(a) + Pow256(|a|) * LeNat(b)
  {
    if a == [] {
      assert a + b == b;
    } else {
      LeNatConcat(a[1..], b);
      assert (a + b)[1..] == a[1..] + b;
      assert Pow256(|a|) * LeNat(b) == 256 * (Pow256(|a| - 1) * LeNat(b));
    }
  }

  lemma DigitBelow(x: nat, y: nat, p: nat, u: nat)
    requires x < y && u < p
    ensures x * p + u < y * p
  {
    MulLe(x + 1, y, p);
  }

  /** The leading digit decides between two numbers with that many digits. */
  lemma LeadingDigitDecides(x: nat, y: nat, p: nat, u: nat, v: nat)
    requires u < p && v < p
    ensures x < y ==> x * p + u < y * p + v
    ensures x == y ==> (x * p + u <= y * p + v <==> u <= v)
  {
    if x < y {
      DigitBelow(x, y, p, u);
    }
  }

  /** Comparing equally long big-endian arrays byte by byte compares the numbers. */
  lemma {:induction false} LexIsNumeric(a: seq<byte>, b: seq<byte>)
    requires |a| == |b|
    ensures LexLe(a, b) <==> BeNat(a) <= BeNat(b)
  {
    if a != [] {
      var p, u, v := Pow256(|a| - 1), BeNat(a[1..]), BeNat(b[1..]);
      assert BeNat(a) == a[0] * p + u by { BeNatHead(a); }
      assert BeNat(b) == b[0] * p + v by { BeNatHead(b); }
      assert u < p && v < p by { BeNatBound(a[1..]); BeNatBound(b[1..]); }
      LexIsNumeric(a[1..], b[1..]);
      LeadingDigitDecides(a[0], b[0], p, u, v);
      LeadingDigitDecides(b[0], a[0], p, v, u);
    }
  }

  /** Two arrays of one length with the same value are the same array. */
  lemma {:induction false} BeNatInjective(a: seq<byte>, b: seq<byte>)
    requires |a| == |b| && BeNat(a) == BeNat(b)
    ensures a == b
  {
    if a != [] {
      BeNatInjective(a[..|a| - 1], b[..|b| - 1]);
      assert a == a[..|a| - 1] + [a[|a| - 1]];
      assert b == b[..|b| - 1] + [b[|b| - 1]];
    }
  }

  /** The `n`-byte big-endian array of a value that fits. */
  function BeBytes(v: nat, n: nat): (s: seq<byte>)
    requires v < Pow256(n)
    ensures |s| == n && BeNat(s) == v
  {
    if n == 0 then []
    else
      var s := BeBytes(v / 256, n - 1) + [v % 256];
      assert s[..n - 1] == BeBytes(v / 256, n - 1);
      s
  }

  lemma Pow256Values()
    ensures Pow256(6) == 0x1_0000_0000_0000
    ensures Pow256(7) == 0x100_0000_0000_0000
    ensures Pow256(8) == 0x1_0000_0000_0000_0000
  {
    assert Pow256(3) == 0x100_0000;
    assert Pow256(6) == 0x1_0000_0000_0000;
  }
}
