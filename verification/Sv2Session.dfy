/** Job ids and extranonce space of a Stratum V2 session
    (src/protocol/sv2/mod.rs, with the extranonce counter of
    src/network/session.rs). */
module Sv2Session {
  import opened Wrappers
  import opened Bytes
  import Arith
  import Coinbase
  import JobHistory

  const RETAINED_JOBS: nat := 16

  datatype JobId = JobId(id: nat, engineId: string)

  // ----- Job ids -----

  /** The id of the `k`-th job sent: 1, 2, ... and past the largest 32-bit number
      back to 1, never 0. */
  function IdOf(k: nat): (id: nat)
    ensures 1 <= id <= U32_MAX
  {
    k % U32_MAX + 1
  }

  /** `wrapping_add`, skipping zero. */
  function Following(id: nat): nat {
    var next := (id + 1) % (U32_MAX + 1);
    if next == 0 then 1 else next
  }

  lemma IdFollows(k: nat)
    ensures IdOf(k + 1) == Following(IdOf(k))
  {
    Arith.RemainderNext(k, U32_MAX);
    FollowingIs(IdOf(k));
  }

  lemma FollowingIs(id: nat)
    requires 1 <= id <= U32_MAX
    ensures Following(id) == if id == U32_MAX then 1 else id + 1
  {
  }

  /** Ids repeat only after all 2^32 - 1 have been used. */
  lemma IdsDiffer(j: nat, k: nat)
    requires j < k < j + U32_MAX
    ensures IdOf(j) != IdOf(k)
  {
  }

  /** The retained pairs are those of the last sixteen jobs sent. */
  ghost predicate Retains(jobs: seq<JobId>, sent: seq<string>) {
    |jobs| == (if |sent| < RETAINED_JOBS then |sent| else RETAINED_JOBS) && Tail(jobs, sent)
  }

  /** The pairs of the last jobs sent. */
  ghost predicate Tail(jobs: seq<JobId>, sent: seq<string>) {
    && |jobs| <= |sent|
    && forall i :: 0 <= i < |jobs| ==>
         jobs[i] == JobId(IdOf(|sent| - |jobs| + i), sent[|sent| - |jobs| + i])
  }

  lemma TailPush(jobs: seq<JobId>, sent: seq<string>, engineId: string)
    requires Tail(jobs, sent)
    ensures Tail(jobs + [JobId(IdOf(|sent|), engineId)], sent + [engineId])
  {
  }

  lemma TailPop(jobs: seq<JobId>, sent: seq<string>)
    requires Tail(jobs, sent) && jobs != []
    ensures Tail(jobs[1..], sent)
  {
  }

  /** First pair with the id. */
  function Lookup(jobs: seq<JobId>, id: nat): (r: Option<string>)
    ensures r.None? <==> forall i :: 0 <= i < |jobs| ==> jobs[i].id != id
    ensures r.Some? ==> exists i :: 0 <= i < |jobs| && jobs[i] == JobId(id, r.value)
  {
    if jobs == [] then None
    else if jobs[0].id == id then
      assert jobs[0] == JobId(id, jobs[0].engineId);
      Some(jobs[0].engineId)
    else
      var r := Lookup(jobs[1..], id);
      assert r.Some? ==> exists i :: 1 <= i < |jobs| && jobs[i] == JobId(id, r.value) by {
        if r.Some? {
          var i :| 0 <= i < |jobs[1..]| && jobs[1..][i] == JobId(id, r.value);
          assert jobs[i + 1] == JobId(id, r.value);
        }
      }
      assert r.None? ==> forall i :: 1 <= i < |jobs| ==> jobs[i].id != id by {
        if r.None? {
          forall i | 1 <= i < |jobs| ensures jobs[i].id != id { assert jobs[1..][i - 1] == jobs[i]; }
        }
      }
      r
  }

  /** The retained ids are pairwise distinct and non-zero. */
  lemma RetainedDistinct(jobs: seq<JobId>, sent: seq<string>)
    requires Retains(jobs, sent)
    ensures forall i, j :: 0 <= i < j < |jobs| ==> jobs[i].id != jobs[j].id
    ensures forall i :: 0 <= i < |jobs| ==> 1 <= jobs[i].id <= U32_MAX
  {
    forall i, j | 0 <= i < j < |jobs| ensures jobs[i].id != jobs[j].id {
      IdsDiffer(|sent| - |jobs| + i, |sent| - |jobs| + j);
    }
  }

  /** The id given to the `k`-th job sent resolves to that job exactly while fewer
      than sixteen jobs have been sent after it, and to none afterwards (until ids
      come round again). */
  lemma ResolvesIff(jobs: seq<JobId>, sent: seq<string>, k: nat)
    requires Retains(jobs, sent) && k < |sent| < k + U32_MAX
    ensures Lookup(jobs, IdOf(k)) == if |sent| - k <= 16 then Some(sent[k]) else None
  {
    var base := |sent| - |jobs|;
    forall i | 0 <= i < |jobs| && base + i != k ensures jobs[i].id != IdOf(k) {
      if base + i < k {
        IdsDiffer(base + i, k);
      } else {
        IdsDiffer(k, base + i);
      }
    }
    if |sent| - k <= RETAINED_JOBS {
      assert jobs[k - base] == JobId(IdOf(k), sent[k]);
    }
  }

  lemma {:induction false} Spread(order: seq<nat>, k: nat, i: nat)
    requires k <= i < |order| && forall i, j :: k <= i < j < |order| ==> order[i] < order[j]
    ensures order[k] + (i - k) <= order[i]
  {
    if k < i {
      Spread(order, k, i - 1);
    }
  }

  /** `order` gives each sent job's place among the jobs the engine issued. A job the
      engine still keeps, after which only newer jobs were sent, resolves to its own
      engine id, and the engine finds that very job under it. */
  lemma KeptJobResolves(jobs: seq<JobId>, sent: seq<string>, order: seq<nat>, k: nat, issued: seq<JobHistory.Entry>)
    requires Retains(jobs, sent) && |order| == |sent| && k < |sent|
    requires forall i :: 0 <= i < |sent| ==> order[i] < |issued| && sent[i] == issued[order[i]].job.id
    requires forall i, j :: k <= i < j < |order| ==> order[i] < order[j]
    requires JobHistory.Base(issued) <= order[k]
    requires forall i, j :: JobHistory.Base(issued) <= i < j < |issued| ==> issued[i].job.id != issued[j].job.id
    ensures Lookup(jobs, IdOf(k)) == Some(sent[k])
    ensures var found := JobHistory.Find(JobHistory.LastEntries(issued), sent[k]);
            found.Some? && found.value.job == issued[order[k]].job
  {
    Spread(order, k, |order| - 1);
    ResolvesIff(jobs, sent, k);
    KeptIsFound(issued, order[k]);
  }

  lemma KeptIsFound(issued: seq<JobHistory.Entry>, at: nat)
    requires JobHistory.Base(issued) <= at < |issued|
    requires forall i, j :: JobHistory.Base(issued) <= i < j < |issued| ==> issued[i].job.id != issued[j].job.id
    ensures var found := JobHistory.Find(JobHistory.LastEntries(issued), issued[at].job.id);
            found.Some? && found.value.job == issued[at].job
  {
    var (h, b, id) := (JobHistory.LastEntries(issued), JobHistory.Base(issued), issued[at].job.id);
    assert h[at - b] == issued[at];
    var p := JobHistory.Position(h, id);
    if p.Some? {
      assert h[p.value] == issued[b + p.value];
    }
  }

  // ----- Extranonce prefixes -----

  /** The low `size` bytes of the counter, padded in front past eight. */
  function Extranonce1(counter: nat, size: nat): seq<byte>
    requires counter <= U64_MAX
  {
    Pow256Values();
    var bytes := BeBytes(counter, 8);
    if size <= 8 then bytes[8 - size..] else Zeros(size - 8) + bytes
  }

  function Digits(size: nat): nat { if size <= 8 then size else 8 }

  lemma ExtranonceValue(counter: nat, size: nat)
    requires counter <= U64_MAX
    ensures |Extranonce1(counter, size)| == size
    ensures BeNat(Extranonce1(counter, size)) == counter % Pow256(Digits(size))
  {
    Pow256Values();
    var bytes := BeBytes(counter, 8);
    if size <= 8 {
      var (hi, lo) := (bytes[..8 - size], bytes[8 - size..]);
      assert bytes == hi + lo;
      BeNatConcat(hi, lo);
      BeNatBound(lo);
      Arith.QuotientOf(counter, BeNat(hi), Pow256(size), BeNat(lo));
    } else {
      BeNatConcat(Zeros(size - 8), bytes);
      BeNatZeros(size - 8);
      Arith.QuotientOf(counter, 0, Pow256(8), counter);
    }
  }

  /** Two sessions with equally wide prefixes share one exactly when their counters
      agree in the bytes that fit: never within 256^size sessions, always at width
      zero. */
  lemma PrefixesCollideIff(a: nat, b: nat, size: nat)
    requires a <= U64_MAX && b <= U64_MAX
    ensures Extranonce1(a, size) == Extranonce1(b, size) <==> a % Pow256(Digits(size)) == b % Pow256(Digits(size))
  {
    ExtranonceValue(a, size);
    ExtranonceValue(b, size);
    if BeNat(Extranonce1(a, size)) == BeNat(Extranonce1(b, size)) {
      BeNatInjective(Extranonce1(a, size), Extranonce1(b, size));
    }
  }

  /** The leading bytes of a big-endian number. */
  lemma LeadingBytes(s: seq<byte>, m: nat)
    requires m <= |s|
    ensures BeNat(s[..m]) == BeNat(s) / Pow256(|s| - m)
  {
    var (hi, lo) := (s[..m], s[m..]);
    assert s == hi + lo;
    BeNatConcat(hi, lo);
    BeNatBound(lo);
    Arith.QuotientOf(BeNat(s), BeNat(hi), Pow256(|lo|), BeNat(lo));
  }

  /** Of two prefixes of any widths, the narrower opens the wider exactly when its
      counter's bytes are the leading ones. */
  lemma PrefixOpensIff(a: nat, m: nat, b: nat, n: nat)
    requires a <= U64_MAX && b <= U64_MAX && m <= n
    ensures Extranonce1(a, m) <= Extranonce1(b, n)
       <==> a % Pow256(Digits(m)) == (b % Pow256(Digits(n))) / Pow256(n - m)
  {
    ExtranonceValue(a, m);
    ExtranonceValue(b, n);
    OpensByValue(Extranonce1(a, m), Extranonce1(b, n), n - m);
  }

  lemma OpensByValue(p: seq<byte>, q: seq<byte>, k: nat)
    requires |q| == |p| + k
    ensures p <= q <==> BeNat(p) == BeNat(q) / Pow256(k)
  {
    var head := q[..|p|];
    LeadingBytes(q, |p|);
    assert p <= q <==> p == head;
    if BeNat(p) == BeNat(head) {
      BeNatInjective(p, head);
    }
  }

  /** Some extranonce of the reserved width belongs to both sessions. */
  ghost predicate Meet(p: seq<byte>, q: seq<byte>, total: nat) {
    exists x: seq<byte> :: |x| == total && p <= x && q <= x
  }

  /** Two sessions search disjoint space exactly when the narrower prefix does not open the
      wider one. A channel granted the whole width has an empty prefix and meets all. */
  lemma SpacesMeetIff(p: seq<byte>, q: seq<byte>, total: nat)
    requires |p| <= |q| <= total
    ensures Meet(p, q, total) <==> p <= q
  {
    if p <= q {
      var x := q + Zeros(total - |q|);
      assert q <= x && p <= x;
    }
    if Meet(p, q, total) {
      var x: seq<byte> :| |x| == total && p <= x && q <= x;
      assert p == x[..|p|] && q == x[..|q|];
      assert q[..|p|] == x[..|p|];
    }
  }

  /** The pool-wide counter. */
  class ExtranonceCounter {
    var next: nat

    ghost predicate Valid() reads this { next <= U64_MAX }

    constructor ()
      ensures Valid() && next == 1
    {
      next := 1;
    }

    method Generate(size: nat) returns (prefix: seq<byte>)
      requires Valid()
      modifies this
      ensures Valid() && prefix == Extranonce1(old(next), size) && |prefix| == size
      ensures next == if old(next) == U64_MAX then 0 else old(next) + 1
    {
      ExtranonceValue(next, size);
      var counter := next;
      next := if next == U64_MAX then 0 else next + 1;
      prefix := Extranonce1(counter, size);
    }
  }

  // ----- The session -----

  class Sv2Session {
    const extranonceTotal: nat
    var extranoncePrefix: seq<byte>
    var extranonceSize: nat
    var jobIds: seq<JobId>
    var nextJobId: nat
    /** Engine ids of all jobs sent. */
    ghost var sent: seq<string>

    ghost predicate Valid()
      reads this
    {
      && |extranoncePrefix| + extranonceSize == extranonceTotal >= 1
      && Retains(jobIds, sent) && nextJobId == IdOf(|sent|)
    }

    constructor (prefix: seq<byte>, size1: nat, size2: nat)
      requires |prefix| == size1 && size1 + size2 >= 1
      ensures Valid() && sent == [] && extranonceTotal == size1 + size2
    {
      extranonceTotal := size1 + size2;
      extranoncePrefix := prefix;
      extranonceSize := size2;
      jobIds := [];
      nextJobId := 1;
      sent := [];
    }

    method AssignJobId(engineJobId: string) returns (id: nat)
      requires Valid()
      modifies this`jobIds, this`nextJobId, this`sent
      ensures Valid() && sent == old(sent) + [engineJobId] && id == IdOf(|old(sent)|)
    {
      id := nextJobId;
      nextJobId := (nextJobId + 1) % (U32_MAX + 1);
      if nextJobId == 0 {
        nextJobId := 1;
      }
      IdFollows(|sent|);
      TailPush(jobIds, sent, engineJobId);
      jobIds := jobIds + [JobId(id, engineJobId)];
      sent := sent + [engineJobId];
      while |jobIds| > RETAINED_JOBS
        invariant |jobIds| == |old(jobIds)| + 1 || |jobIds| == RETAINED_JOBS <= |old(jobIds)|
        invariant Tail(jobIds, sent)
        decreases |jobIds|
        modifies this`jobIds
      {
        TailPop(jobIds, sent);
        jobIds := jobIds[1..];
      }
    }

    /** The id of the `k`-th job sent leads to it while it is among the last sixteen. */
    function EngineJobId(id: nat): (r: Option<string>)
      reads this
      requires Valid()
      ensures forall k: nat :: k < |sent| < k + U32_MAX && IdOf(k) == id ==>
        r == if |sent| - k <= 16 then Some(sent[k]) else None
    {
      assert forall k: nat :: k < |sent| < k + U32_MAX && IdOf(k) == id ==>
        Lookup(jobIds, id) == if |sent| - k <= 16 then Some(sent[k]) else None by {
        forall k: nat | k < |sent| < k + U32_MAX && IdOf(k) == id
          ensures Lookup(jobIds, id) == if |sent| - k <= 16 then Some(sent[k]) else None
        {
          ResolvesIff(jobIds, sent, k);
        }
      }
      Lookup(jobIds, id)
    }

    /** A channel open or re-open: refused without a trace when it asks for more than
        is reserved; otherwise the device gets what it asked for, at least one byte,
        and the pool's prefix is exactly the rest. */
    method OpenExtended(requested: nat, counter: ExtranonceCounter) returns (granted: bool)
      requires Valid() && counter.Valid()
      modifies this`extranoncePrefix, this`extranonceSize, counter
      ensures Valid() && counter.Valid() && granted == (requested <= extranonceTotal)
      ensures granted ==>
        && extranonceSize == (if requested == 0 then 1 else requested)
        && extranoncePrefix == Extranonce1(old(counter.next), extranonceTotal - extranonceSize)
        && counter.next == if old(counter.next) == U64_MAX then 0 else old(counter.next) + 1
      ensures !granted ==>
        extranoncePrefix == old(extranoncePrefix) && extranonceSize == old(extranonceSize) && counter.next == old(counter.next)
    {
      if requested > extranonceTotal {
        return false;
      }
      extranonceSize := if requested == 0 then 1 else requested;
      extranoncePrefix := counter.Generate(extranonceTotal - extranonceSize);
      return true;
    }

    /** The coinbase a submitted extranonce is checked against: for a job with the
        reserved width, always the two halves around prefix and extranonce, never the
        zeroed template. */
    method SubmittedCoinbase(job: Coinbase.Job, extranonce: seq<byte>) returns (r: Option<seq<byte>>)
      requires Valid() && job.len1 + job.len2 == extranonceTotal
      requires job.offset + job.len1 + job.len2 <= |job.template|
      requires job == Coinbase.SplitJob(job.template, job.offset, job.len1, job.len2)
      ensures r.None? <==> |extranonce| != extranonceSize
      ensures r.Some? ==> r.value == job.coinbase1 + (extranoncePrefix + extranonce + job.coinbase2)
    {
      if |extranonce| != extranonceSize {
        return None;
      }
      var coinbase := Coinbase.AssembleCoinbase(job, extranoncePrefix, extranonce);
      return Some(coinbase);
    }
  }
}
