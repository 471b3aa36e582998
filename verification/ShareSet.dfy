/** Duplicate-share detection (src/mining/validator.rs).

    A set for membership and a queue for first-in-first-out eviction. The two must
    agree with each other and with the history of accepted header hashes since the
    last clean job. */
module ShareSet {
  import opened Wrappers

  /** A 32-byte header hash, as the integer it denotes. */
  type Key = nat

  /** A validated header hash, or the error validation ended in. */
  datatype Outcome = Valid(hash: Key) | Invalid(error: string)

  datatype Verdict = Accept(hash: Key) | Duplicate | Reject(error: string)

  ghost predicate Distinct(xs: seq<Key>) {
    forall i, j :: 0 <= i < j < |xs| ==> xs[i] != xs[j]
  }

  function Elements(xs: seq<Key>): set<Key> { set x | x in xs }

  lemma {:induction false} DistinctSize(xs: seq<Key>)
    requires Distinct(xs)
    ensures |Elements(xs)| == |xs|
  {
    if xs != [] {
      DistinctSize(xs[1..]);
      assert Elements(xs) == {xs[0]} + Elements(xs[1..]);
      assert xs[0] !in Elements(xs[1..]);
    }
  }

  lemma PopFirst(xs: seq<Key>)
    requires Distinct(xs) && xs != []
    ensures Elements(xs[1..]) == Elements(xs) - {xs[0]} && Distinct(xs[1..])
  {
    assert forall x :: x in xs <==> x == xs[0] || x in xs[1..];
  }

  lemma PushLast(xs: seq<Key>, x: Key)
    requires Distinct(xs) && x !in Elements(xs)
    ensures Elements(xs + [x]) == Elements(xs) + {x} && Distinct(xs + [x])
  {
    assert x !in xs;
  }

  /** The capacity in effect: eviction never empties the queue it appends to. */
  function Capacity(maxSize: nat): nat { if maxSize == 0 then 1 else maxSize }

  /** The newest `n` entries of a list. */
  function Newest<T>(xs: seq<T>, n: nat): (r: seq<T>)
    ensures |r| == if |xs| < n then |xs| else n
  {
    if |xs| <= n then xs else xs[|xs| - n..]
  }

  /** The queue after accepting a fresh hash. */
  function Enqueue(order: seq<Key>, maxSize: nat, key: Key): seq<Key> {
    (if |order| >= maxSize && order != [] then order[1..] else order) + [key]
  }

  class ShareSet {
    var seen: set<Key>
    var order: seq<Key>
    const maxSize: nat

    ghost predicate Valid()
      reads this
    {
      seen == Elements(order) && Distinct(order) && |order| <= Capacity(maxSize)
    }

    /** `new`, whose cap is 4096, and the derived default, whose cap is 0. */
    constructor (cap: nat)
      ensures Valid() && order == [] && maxSize == cap
    {
      seen, order, maxSize := {}, [], cap;
    }

    method Contains(key: Key) returns (r: bool)
      requires Valid()
      ensures r <==> key in order
    {
      r := key in seen;
    }

    method Insert(key: Key)
      requires Valid()
      modifies this
      ensures Valid()
      ensures order == if key in old(order) then old(order) else Enqueue(old(order), maxSize, key)
    {
      if key in seen {
        return;
      }
      DistinctSize(order);
      if |seen| >= maxSize {
        if order != [] {
          PopFirst(order);
          var oldest := order[0];
          order := order[1..];
          seen := seen - {oldest};
        }
      }
      PushLast(order, key);
      order := order + [key];
      seen := seen + {key};
    }

    /** `dedup`: an already accepted hash is a duplicate, a fresh one is recorded,
        and an error passes through without touching the state. */
    method Dedup(result: Outcome) returns (v: Verdict)
      requires Valid()
      modifies this
      ensures Valid()
      ensures result.Invalid? ==> v == Reject(result.error) && order == old(order)
      ensures result.Valid? && result.hash in old(order) ==> v == Duplicate && order == old(order)
      ensures result.Valid? && result.hash !in old(order) ==>
        && v == Accept(result.hash)
        && order == (if |old(order)| < maxSize || old(order) == [] then old(order) else old(order)[1..]) + [result.hash]
      ensures (order, v) == Decide(old(order), maxSize, result)
    {
      match result {
        case Valid(hash) =>
          var known := Contains(hash);
          if known {
            v := Duplicate;
          } else {
            Insert(hash);
            v := Accept(hash);
          }
        case Invalid(e) =>
          v := Reject(e);
      }
    }

    method Clear()
      requires Valid()
      modifies this
      ensures Valid() && order == []
    {
      seen, order := {}, [];
    }
  }

  // ----- Whole runs -----

  function Decide(order: seq<Key>, maxSize: nat, result: Outcome): (seq<Key>, Verdict) {
    match result
    case Valid(hash) =>
      if hash in order then (order, Duplicate) else (Enqueue(order, maxSize, hash), Accept(hash))
    case Invalid(e) => (order, Reject(e))
  }

  /** A session's events: a submission or a clean-job broadcast. */
  datatype Event = Submit(result: Outcome) | CleanJob

  /** The queue, and every acceptance so far with the number of clean jobs before it. */
  datatype Session = Session(order: seq<Key>, generation: nat, accepted: seq<(Key, nat)>)

  function Step(s: Session, maxSize: nat, e: Event): Session {
    match e
    case CleanJob => Session([], s.generation + 1, s.accepted)
    case Submit(result) =>
      var (order, v) := Decide(s.order, maxSize, result);
      Session(order, s.generation, if v.Accept? then s.accepted + [(v.hash, s.generation)] else s.accepted)
  }

  function Run(events: seq<Event>, maxSize: nat): Session {
    if events == [] then Session([], 0, [])
    else Step(Run(events[..|events| - 1], maxSize), maxSize, events[|events| - 1])
  }

  /** The hashes accepted since the last clean job. */
  function Current(s: Session): seq<Key> { Keys(s.accepted, s.generation) }

  function Keys(accepted: seq<(Key, nat)>, generation: nat): seq<Key> {
    if accepted == [] then []
    else
      var last := accepted[|accepted| - 1];
      var rest := Keys(accepted[..|accepted| - 1], generation);
      if last.1 == generation then rest + [last.0] else rest
  }

  /** The queue is the newest `Capacity` acceptances of the current generation,
      without repeats, and no acceptance belongs to a later generation. */
  ghost predicate Tracks(s: Session, maxSize: nat) {
    && s.order == Newest(Current(s), Capacity(maxSize))
    && Distinct(s.order)
    && forall i :: 0 <= i < |s.accepted| ==> s.accepted[i].1 <= s.generation
  }

  lemma {:induction false} NoFutureKeys(accepted: seq<(Key, nat)>, generation: nat)
    requires forall i :: 0 <= i < |accepted| ==> accepted[i].1 < generation
    ensures Keys(accepted, generation) == []
  {
    if accepted != [] {
      NoFutureKeys(accepted[..|accepted| - 1], generation);
    }
  }

  lemma EnqueueIsNewest(xs: seq<Key>, maxSize: nat, key: Key)
    ensures Enqueue(Newest(xs, Capacity(maxSize)), maxSize, key) == Newest(xs + [key], Capacity(maxSize))
  {
  }

  lemma StepTracks(s: Session, maxSize: nat, e: Event)
    requires Tracks(s, maxSize)
    ensures Tracks(Step(s, maxSize, e), maxSize)
  {
    match e
    case CleanJob =>
      NoFutureKeys(s.accepted, s.generation + 1);
    case Submit(Invalid(_)) =>
    case Submit(Valid(hash)) =>
      if hash !in s.order {
        var longer := s.accepted + [(hash, s.generation)];
        assert longer[..|longer| - 1] == s.accepted;
        EnqueueIsNewest(Current(s), maxSize, hash);
      }
  }

  lemma {:induction false} RunTracks(events: seq<Event>, maxSize: nat)
    ensures Tracks(Run(events, maxSize), maxSize)
  {
    if events != [] {
      RunTracks(events[..|events| - 1], maxSize);
      StepTracks(Run(events[..|events| - 1], maxSize), maxSize, events[|events| - 1]);
    }
  }

  /** Over whole runs: a valid submission is accepted exactly when its hash is not among
      the newest `Capacity` ones accepted since the last clean job, full queue or not. */
  lemma AcceptedIff(events: seq<Event>, maxSize: nat, hash: Key)
    ensures var s := Run(events, maxSize);
            var t := Run(events + [Submit(Valid(hash))], maxSize);
            var held := Newest(Current(s), if maxSize == 0 then 1 else maxSize);
            && (hash !in held ==> t.accepted == s.accepted + [(hash, s.generation)])
            && (hash in held ==> t == s)
  {
    RunTracks(events, maxSize);
    assert (events + [Submit(Valid(hash))])[..|events|] == events;
  }

  // ----- How far apart two acceptances of one hash are -----

  /** Generations along the acceptances never go back. */
  ghost predicate Ordered(s: Session) {
    && (forall i, j :: 0 <= i < j < |s.accepted| ==> s.accepted[i].1 <= s.accepted[j].1)
    && forall i :: 0 <= i < |s.accepted| ==> s.accepted[i].1 <= s.generation
  }

  /** The hashes accepted strictly between two positions. */
  function Between(accepted: seq<(Key, nat)>, i: nat, j: nat): set<Key>
    requires j <= |accepted|
  {
    set k | i < k < j :: accepted[k].0
  }

  /** Two acceptances of one hash with no clean job between them have at least
      `Capacity` other hashes accepted between them. */
  ghost predicate Separated(accepted: seq<(Key, nat)>, cap: nat) {
    forall i: nat, j: nat :: i < j < |accepted| && accepted[i] == accepted[j] ==> Apart(accepted, i, j, cap)
  }

  ghost predicate Apart(accepted: seq<(Key, nat)>, i: nat, j: nat, cap: nat)
    requires i < j <= |accepted|
  {
    |Between(accepted, i, j) - {accepted[i].0}| >= cap
  }

  lemma BetweenPrefix(accepted: seq<(Key, nat)>, last: (Key, nat), i: nat, j: nat)
    requires i < j <= |accepted|
    ensures Between(accepted + [last], i, j) == Between(accepted, i, j)
  {
    var longer := accepted + [last];
    forall x ensures x in Between(longer, i, j) <==> x in Between(accepted, i, j) {
      if x in Between(longer, i, j) {
        var k :| i < k < j && longer[k].0 == x;
        assert accepted[k].0 == x;
      }
      if x in Between(accepted, i, j) {
        var k :| i < k < j && accepted[k].0 == x;
        assert longer[k].0 == x;
      }
    }
  }

  /** From position `i` on, every acceptance is of generation `g`: then the
      generation's list ends with exactly those hashes. */
  lemma {:induction false} KeysEndWith(accepted: seq<(Key, nat)>, g: nat, i: nat)
    requires i <= |accepted| && forall k :: i <= k < |accepted| ==> accepted[k].1 == g
    ensures |Keys(accepted, g)| >= |accepted| - i
    ensures forall k :: i <= k < |accepted| ==> Keys(accepted, g)[|Keys(accepted, g)| - (|accepted| - k)] == accepted[k].0
  {
    if i < |accepted| {
      KeysEndWith(accepted[..|accepted| - 1], g, i);
    }
  }

  /** A hash that is accepted again has dropped out of a full queue. */
  lemma FreshAgain(s: Session, maxSize: nat, i: nat, hash: Key)
    requires Tracks(s, maxSize) && Ordered(s)
    requires i < |s.accepted| && s.accepted[i] == (hash, s.generation) && hash !in s.order
    ensures |Between(s.accepted, i, |s.accepted|) - {hash}| >= Capacity(maxSize)
  {
    var n, g, cap := |s.accepted|, s.generation, Capacity(maxSize);
    var keys := Current(s);
    forall k | i <= k < n ensures s.accepted[k].1 == g { assert s.accepted[i].1 <= s.accepted[k].1; }
    KeysEndWith(s.accepted, g, i);
    var at := |keys| - (n - i);
    assert keys[at] == hash;
    assert |keys| - cap > at;
    assert |s.order| == cap;
    forall x | x in Elements(s.order) ensures x in Between(s.accepted, i, n) - {hash} {
      var m :| 0 <= m < cap && s.order[m] == x;
      var k := n - cap + m;
      assert s.order[m] == keys[|keys| - cap + m] == keys[|keys| - (n - k)] == s.accepted[k].0;
      assert i < k < n;
    }
    DistinctSize(s.order);
    SubsetSize(Elements(s.order), Between(s.accepted, i, n) - {hash});
  }

  lemma StepSeparates(s: Session, maxSize: nat, e: Event)
    requires Tracks(s, maxSize) && Ordered(s) && Separated(s.accepted, Capacity(maxSize))
    ensures Ordered(Step(s, maxSize, e)) && Separated(Step(s, maxSize, e).accepted, Capacity(maxSize))
  {
    var t := Step(s, maxSize, e);
    if t.accepted != s.accepted {
      AcceptSeparates(s, maxSize, e.result.hash);
    }
  }

  lemma AcceptSeparates(s: Session, maxSize: nat, hash: Key)
    requires Tracks(s, maxSize) && Ordered(s) && Separated(s.accepted, Capacity(maxSize)) && hash !in s.order
    ensures Separated(s.accepted + [(hash, s.generation)], Capacity(maxSize))
  {
    var last := (hash, s.generation);
    var longer, n := s.accepted + [last], |s.accepted|;
    forall i: nat, j: nat | i < j < |longer| && longer[i] == longer[j]
      ensures Apart(longer, i, j, Capacity(maxSize))
    {
      BetweenPrefix(s.accepted, last, i, j);
      if j == n {
        FreshAgain(s, maxSize, i, hash);
      } else {
        assert Apart(s.accepted, i, j, Capacity(maxSize));
      }
    }
  }

  /** In every run, two acceptances of one header hash are separated by a clean job
      or by at least `Capacity` (4096) other distinct accepted hashes. */
  lemma {:induction false} RunSeparates(events: seq<Event>, maxSize: nat)
    ensures Ordered(Run(events, maxSize))
    ensures Separated(Run(events, maxSize).accepted, Capacity(maxSize))
  {
    if events != [] {
      var before := events[..|events| - 1];
      RunSeparates(before, maxSize);
      RunTracks(before, maxSize);
      StepSeparates(Run(before, maxSize), maxSize, events[|events| - 1]);
    }
  }

  /** When clean jobs always change the tip, no header recurs across them: every
      accepted header builds on the tip of its generation, tips differ between
      generations, so a repeat is within one generation and 4096 hashes apart. */
  lemma NoReplayWhenTipsDiffer<Tip>(events: seq<Event>, maxSize: nat, tipOf: Key -> Tip, tipAt: nat -> Tip, i: nat, j: nat)
    requires i < j < |Run(events, maxSize).accepted|
    requires forall k :: 0 <= k < |Run(events, maxSize).accepted| ==>
               tipOf(Run(events, maxSize).accepted[k].0) == tipAt(Run(events, maxSize).accepted[k].1)
    requires forall g: nat, h: nat :: tipAt(g) == tipAt(h) ==> g == h
    requires Run(events, maxSize).accepted[i].0 == Run(events, maxSize).accepted[j].0
    ensures Apart(Run(events, maxSize).accepted, i, j, Capacity(maxSize))
  {
    RunSeparates(events, maxSize);
    var accepted := Run(events, maxSize).accepted;
    assert tipAt(accepted[i].1) == tipAt(accepted[j].1);
  }

  /** The hypothesis is needed: a clean job issued on an unchanged tip lets the same
      hash be accepted again at once. */
  lemma CleanJobForgets(hash: Key, maxSize: nat)
    ensures Run([] + [Submit(Valid(hash))] + [CleanJob] + [Submit(Valid(hash))], maxSize).accepted
         == [(hash, 0), (hash, 1)]
  {
    var a := [] + [Submit(Valid(hash))];
    assert a[..0] == [];
    var b := a + [CleanJob];
    assert b[..1] == a;
    var c := b + [Submit(Valid(hash))];
    assert c[..2] == b;
    assert Run(a, maxSize).accepted == [(hash, 0)];
    assert Run(b, maxSize) == Session([], 1, [(hash, 0)]);
  }
}
