/** Merkle branch construction (src/bitcoin/template.rs).

    The pool does not know the coinbase hash when it builds a job, so it keeps a
    level whose first node is unknown and records the sibling at each height.
    `double_sha256` is a parameter: nothing here depends on what it computes. */
module Merkle {
  import opened Wrappers
  import opened Bytes

  type Hash = seq<byte>
  type Hasher = seq<byte> -> Hash

  // ----- The reference: the full tree Bitcoin commits to -----

  /** An odd level repeats its last node. */
  function Padded<T>(level: seq<T>): (p: seq<T>)
    ensures |p| % 2 == 0 && |level| <= |p| <= |level| + 1
    ensures level <= p
  {
    if |level| % 2 == 1 then level + [level[|level| - 1]] else level
  }

  function Parent(dsha: Hasher, left: Hash, right: Hash): Hash {
    dsha(left + right)
  }

  function Parents(dsha: Hasher, level: seq<Hash>): (up: seq<Hash>)
    requires |level| % 2 == 0
    ensures |up| == |level| / 2
  {
    seq(|level| / 2, i requires 0 <= i < |level| / 2 => Parent(dsha, level[2 * i], level[2 * i + 1]))
  }

  /** The root of the full tree over all leaves. */
  function MerkleRoot(dsha: Hasher, leaves: seq<Hash>): Hash
    requires leaves != []
    decreases |leaves|
  {
    if |leaves| == 1 then leaves[0] else MerkleRoot(dsha, Parents(dsha, Padded(leaves)))
  }

  /** Three leaves: the last is paired with itself. */
  lemma MerkleOfThree(dsha: Hasher, a: Hash, b: Hash, c: Hash)
    ensures MerkleRoot(dsha, [a, b, c]) == dsha(dsha(a + b) + dsha(c + c))
  {
    var (left, right) := (dsha(a + b), dsha(c + c));
    assert Padded([a, b, c]) == [a, b, c, c];
    assert Parents(dsha, [a, b, c, c]) == [left, right];
    MerkleOfTwo(dsha, left, right);
    assert MerkleRoot(dsha, [a, b, c]) == MerkleRoot(dsha, [left, right]);
  }

  lemma MerkleOfTwo(dsha: Hasher, a: Hash, b: Hash)
    ensures MerkleRoot(dsha, [a, b]) == dsha(a + b)
  {
    assert Padded([a, b]) == [a, b];
    assert Parents(dsha, [a, b]) == [dsha(a + b)];
    assert MerkleRoot(dsha, [a, b]) == MerkleRoot(dsha, [dsha(a + b)]);
  }

  /** Hashing upward from a leaf-0 hash along its siblings. */
  function Climb(dsha: Hasher, hash: Hash, branch: seq<Hash>): Hash {
    if branch == [] then hash
    else Parent(dsha, Climb(dsha, hash, branch[..|branch| - 1]), branch[|branch| - 1])
  }

  function Pow2(n: nat): (p: nat)
    ensures p >= 1
  {
    if n == 0 then 1 else 2 * Pow2(n - 1)
  }

  // ----- The level the code keeps -----

  /** The code's level: an unknown first node followed by known hashes. */
  function Hidden(rest: seq<Hash>): seq<Option<Hash>> {
    [None] + seq(|rest|, i requires 0 <= i < |rest| => Some(rest[i]))
  }

  /** The known part of a level after the padding step. */
  function PaddedRest(rest: seq<Hash>): (p: seq<Hash>)
    requires rest != []
    ensures |p| % 2 == 1 && rest <= p && |p| <= |rest| + 1
  {
    if |rest| % 2 == 0 then rest + [rest[|rest| - 1]] else rest
  }

  /** The known part of the next level: every pair but the first. */
  function RestAbove(dsha: Hasher, rest: seq<Hash>): (up: seq<Hash>)
    requires rest != []
    ensures |up| == |rest| / 2
  {
    Parents(dsha, PaddedRest(rest)[1..])
  }

  lemma PaddedLevel(h: Hash, rest: seq<Hash>)
    requires rest != []
    ensures Padded([h] + rest) == [h] + PaddedRest(rest)
  {
    if |rest| % 2 == 0 {
      assert ([h] + rest)[|rest|] == rest[|rest| - 1];
      assert [h] + rest + [rest[|rest| - 1]] == [h] + (rest + [rest[|rest| - 1]]);
    }
  }

  lemma PaddedHidden(rest: seq<Hash>)
    requires rest != [] && |rest| % 2 == 0
    ensures Hidden(rest) + [Hidden(rest)[|rest|]] == Hidden(PaddedRest(rest))
  {
  }

  lemma ParentsOfLevel(dsha: Hasher, h: Hash, known: seq<Hash>)
    requires |known| % 2 == 1
    ensures Parents(dsha, [h] + known) == [Parent(dsha, h, known[0])] + Parents(dsha, known[1..])
  {
  }

  /** One level up in the full tree, seen from leaf 0 with hash `h`. */
  lemma LevelUp(dsha: Hasher, h: Hash, rest: seq<Hash>)
    requires rest != []
    ensures MerkleRoot(dsha, [h] + rest) == MerkleRoot(dsha, [Parent(dsha, h, rest[0])] + RestAbove(dsha, rest))
  {
    PaddedLevel(h, rest);
    ParentsOfLevel(dsha, h, PaddedRest(rest));
  }

  /** What the level loop keeps: the tree seen from leaf 0 is unchanged. */
  ghost predicate SameTree(dsha: Hasher, txids: seq<Hash>, branch: seq<Hash>, rest: seq<Hash>) {
    forall coinbase: Hash ::
      MerkleRoot(dsha, [coinbase] + txids) == MerkleRoot(dsha, [Climb(dsha, coinbase, branch)] + rest)
  }

  lemma SameTreeEnd(dsha: Hasher, txids: seq<Hash>, branch: seq<Hash>)
    requires SameTree(dsha, txids, branch, [])
    ensures forall coinbase: Hash :: Climb(dsha, coinbase, branch) == MerkleRoot(dsha, [coinbase] + txids)
  {
    forall coinbase: Hash
      ensures Climb(dsha, coinbase, branch) == MerkleRoot(dsha, [coinbase] + txids)
    {
      assert [Climb(dsha, coinbase, branch)] + [] == [Climb(dsha, coinbase, branch)];
    }
  }

  lemma SameTreeUp(dsha: Hasher, txids: seq<Hash>, branch: seq<Hash>, rest: seq<Hash>)
    requires rest != [] && SameTree(dsha, txids, branch, rest)
    ensures SameTree(dsha, txids, branch + [rest[0]], RestAbove(dsha, rest))
  {
    var longer := branch + [rest[0]];
    assert longer[..|longer| - 1] == branch;
    forall coinbase: Hash
      ensures MerkleRoot(dsha, [coinbase] + txids)
           == MerkleRoot(dsha, [Climb(dsha, coinbase, longer)] + RestAbove(dsha, rest))
    {
      LevelUp(dsha, Climb(dsha, coinbase, branch), rest);
    }
  }

  /** The number of nodes a level of `1 + m` stands for, `depth` levels up. */
  ghost predicate Counted(depth: nat, m: nat, n: nat) {
    && n + 1 <= Pow2(depth) * (m + 1)
    && Pow2(depth) * m < n + 1
    && (m == 0 && depth > 0 ==> Pow2(depth - 1) < n + 1)
  }

  /** `compute_merkle_branch_raw`. Whatever the coinbase hash turns out to be,
      climbing the branch from it gives the root of the full tree, and the branch
      has exactly ceil(log2(n + 1)) entries. */
  method ComputeMerkleBranchRaw(dsha: Hasher, txids: seq<Hash>) returns (branch: seq<Hash>)
    ensures forall coinbase: Hash :: Climb(dsha, coinbase, branch) == MerkleRoot(dsha, [coinbase] + txids)
    ensures |txids| + 1 <= Pow2(|branch|)
    ensures branch != [] ==> Pow2(|branch| - 1) < |txids| + 1
  {
    branch := [];
    assert SameTree(dsha, txids, branch, txids);
    if txids == [] {
      SameTreeEnd(dsha, txids, branch);
      return;
    }
    var pathIndex := 0;
    var level: seq<Option<Hash>> := [None] + seq(|txids|, i requires 0 <= i < |txids| => Some(txids[i]));
    ghost var rest := txids;
    while |level| > 1
      invariant pathIndex == 0
      invariant level == Hidden(rest)
      invariant SameTree(dsha, txids, branch, rest)
      invariant Counted(|branch|, |rest|, |txids|)
      decreases |level|
    {
      SameTreeUp(dsha, txids, branch, rest);
      LevelCount(|branch|, |rest|, |txids|);
      level, branch := AdvanceLevel(dsha, level, branch, pathIndex, rest);
      rest := RestAbove(dsha, rest);
      pathIndex := pathIndex / 2;
    }
    SameTreeEnd(dsha, txids, branch);
  }

  /** Halving the level doubles what each remaining node stands for. */
  lemma LevelCount(depth: nat, m: nat, n: nat)
    requires m >= 1 && Counted(depth, m, n)
    ensures Counted(depth + 1, m / 2, n)
  {
    var p, k := Pow2(depth), m / 2;
    var q := p * k;
    assert p * m == 2 * q + p * (m % 2) by { assert m == 2 * k + m % 2; }
    assert p * (m % 2) == if m % 2 == 0 then 0 else p;
    assert p * (m + 1) == p * m + p;
    assert Pow2(depth + 1) * k == 2 * q && Pow2(depth + 1) * (k + 1) == 2 * q + 2 * p;
    assert q >= 0;
  }

  /** One turn of the level loop: pad, record the sibling, pair up. */
  method AdvanceLevel(dsha: Hasher, level: seq<Option<Hash>>, branch: seq<Hash>, pathIndex: nat, ghost rest: seq<Hash>)
    returns (next: seq<Option<Hash>>, longer: seq<Hash>)
    requires rest != [] && level == Hidden(rest) && pathIndex == 0
    ensures next == Hidden(RestAbove(dsha, rest))
    ensures longer == branch + [rest[0]]
  {
    var padded := level;
    if |level| % 2 != 0 {
      PaddedHidden(rest);
      padded := padded + [padded[|padded| - 1]];
    }
    assert padded == Hidden(PaddedRest(rest));
    var siblingIndex := if pathIndex % 2 == 0 then pathIndex + 1 else pathIndex - 1;
    longer := branch;
    if padded[siblingIndex].Some? {
      longer := longer + [padded[siblingIndex].value];
    }
    next := NextLevel(dsha, padded, PaddedRest(rest));
  }

  /** One pass of the inner loop: pairs with the unknown node stay unknown. */
  method NextLevel(dsha: Hasher, level: seq<Option<Hash>>, ghost known: seq<Hash>) returns (next: seq<Option<Hash>>)
    requires |known| % 2 == 1 && level == Hidden(known)
    ensures next == Hidden(Parents(dsha, known[1..]))
  {
    next := [];
    var i := 0;
    while i < |level|
      invariant 0 <= i <= |level| == |known| + 1 && i % 2 == 0
      invariant |next| == i / 2
      invariant i > 0 ==> next[0] == None
      invariant forall j :: 1 <= j < i / 2 ==> next[j] == Some(Parent(dsha, known[2 * j - 1], known[2 * j]))
    {
      match (level[i], level[i + 1]) {
        case (Some(left), Some(right)) =>
          next := next + [Some(dsha(left + right))];
        case _ =>
          next := next + [None];
      }
      i := i + 2;
    }
    assert next == Hidden(Parents(dsha, known[1..]));
  }

  /** `StratumJob::merkle_root`: the fold the pool applies at submit time. */
  method MerkleRootFromBranch(dsha: Hasher, coinbase: seq<byte>, branch: seq<Hash>) returns (root: Hash)
    ensures root == Climb(dsha, dsha(coinbase), branch)
  {
    root := dsha(coinbase);
    for i := 0 to |branch|
      invariant root == Climb(dsha, dsha(coinbase), branch[..i])
    {
      assert branch[..i + 1][..i] == branch[..i];
      root := dsha(root + branch[i]);
    }
    assert branch[..|branch|] == branch;
  }

  /** Building the branch once and climbing it at submit time commits the header
      to the full tree over the finished coinbase and every template txid. */
  method CommitTransactions(dsha: Hasher, coinbase: seq<byte>, txids: seq<Hash>) returns (root: Hash)
    ensures root == MerkleRoot(dsha, [dsha(coinbase)] + txids)
  {
    var branch := ComputeMerkleBranchRaw(dsha, txids);
    root := MerkleRootFromBranch(dsha, coinbase, branch);
  }
}
