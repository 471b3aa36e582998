/** Round work, best shares and found blocks under concurrent sessions
    (src/stats.rs).

    Every atomic operation of `share_accepted` and `block_found` is a step of its
    own: loads, weak compare-and-exchanges that may fail for no reason, the swap
    that closes a round, the counter and the list under its lock. A run interleaves
    any number of such calls. Work is a natural number, which an f64 holds exactly
    up to 2^53. */
module RoundWork {
  import opened Wrappers

  datatype Block = Block(hash: string, roundWork: nat)

  datatype Memory = Memory(roundWork: nat, best: nat, sessionBest: nat, blocksFound: nat, found: seq<Block>)

  /** Where a call stands, with its locals. */
  datatype Pc =
    | LoadWork(difficulty: nat, credited: nat)
    | AddWork(difficulty: nat, credited: nat, prev: nat)
    | LoadBest(difficulty: nat)
    | RaiseBest(difficulty: nat, prev: nat)
    | LoadSessionBest(difficulty: nat)
    | RaiseSessionBest(difficulty: nat, prev: nat)
    | CheckFound(hash: string)
    | SwapWork(hash: string)
    | CountBlock(hash: string, work: nat)
    | PushBlock(hash: string, work: nat)
    | Done

  /** An accepted share: its hash's difficulty and the credited one. */
  datatype Call = Call(difficulty: nat, credited: nat)

  /** `calls` lists all shares so far; no code reads it. */
  datatype State = State(mem: Memory, threads: seq<Pc>, calls: seq<Call>)

  datatype Step =
    | StartShare(call: Call)
    | StartFound(hash: string)
    | Advance(thread: nat, spurious: bool)

  predicate Known(found: seq<Block>, hash: string) {
    exists i :: 0 <= i < |found| && found[i].hash == hash
  }

  /** One atomic operation of a call. */
  function Act(mem: Memory, pc: Pc, spurious: bool): (Memory, Pc) {
    match pc
    case LoadWork(d, c) => (mem, AddWork(d, c, mem.roundWork))
    case AddWork(d, c, prev) =>
      if mem.roundWork == prev && !spurious then (mem.(roundWork := prev + c), LoadBest(d))
      else (mem, AddWork(d, c, mem.roundWork))
    case LoadBest(d) => (mem, RaiseBest(d, mem.best))
    case RaiseBest(d, prev) =>
      if d <= prev then (mem, LoadSessionBest(d))
      else if mem.best == prev && !spurious then (mem.(best := d), LoadSessionBest(d))
      else (mem, RaiseBest(d, mem.best))
    case LoadSessionBest(d) => (mem, RaiseSessionBest(d, mem.sessionBest))
    case RaiseSessionBest(d, prev) =>
      if d <= prev then (mem, Done)
      else if mem.sessionBest == prev && !spurious then (mem.(sessionBest := d), Done)
      else (mem, RaiseSessionBest(d, mem.sessionBest))
    case CheckFound(hash) => (mem, if Known(mem.found, hash) then Done else SwapWork(hash))
    case SwapWork(hash) => (mem.(roundWork := 0), CountBlock(hash, mem.roundWork))
    case CountBlock(hash, work) => (mem.(blocksFound := mem.blocksFound + 1), PushBlock(hash, work))
    case PushBlock(hash, work) => (mem.(found := mem.found + [Block(hash, work)]), Done)
    case Done => (mem, Done)
  }

  predicate Enabled(s: State, step: Step) {
    step.Advance? ==> step.thread < |s.threads|
  }

  function Next(s: State, step: Step): State
    requires Enabled(s, step)
  {
    match step
    case StartShare(call) =>
      State(s.mem, s.threads + [LoadWork(call.difficulty, call.credited)], s.calls + [call])
    case StartFound(hash) => s.(threads := s.threads + [CheckFound(hash)])
    case Advance(t, spurious) =>
      var (mem, pc) := Act(s.mem, s.threads[t], spurious);
      State(mem, s.threads[t := pc], s.calls)
  }

  /** Runs start from whatever the store held, with no call under way. */
  ghost predicate Run(ss: seq<State>, steps: seq<Step>) {
    && |ss| == |steps| + 1 && ss[0].threads == [] && ss[0].calls == []
    && forall i :: 0 <= i < |steps| ==> Enabled(ss[i], steps[i]) && ss[i + 1] == Next(ss[i], steps[i])
  }

  ghost predicate Quiescent(s: State) { forall t :: 0 <= t < |s.threads| ==> s.threads[t] == Done }

  // ----- Conservation of work -----

  /** Work a call has in hand: not yet added, or taken out by a closing round. */
  function Held(pc: Pc): nat {
    match pc
    case LoadWork(_, c) => c
    case AddWork(_, c, _) => c
    case CountBlock(_, work) => work
    case PushBlock(_, work) => work
    case _ => 0
  }

  function AtPush(pc: Pc): nat { if pc.PushBlock? then 1 else 0 }

  function Sum(pcs: seq<Pc>, weight: Pc -> nat): nat {
    if pcs == [] then 0 else Sum(pcs[..|pcs| - 1], weight) + weight(pcs[|pcs| - 1])
  }

  function Stored(found: seq<Block>): nat {
    if found == [] then 0 else Stored(found[..|found| - 1]) + found[|found| - 1].roundWork
  }

  function Credits(calls: seq<Call>): nat {
    if calls == [] then 0 else Credits(calls[..|calls| - 1]) + calls[|calls| - 1].credited
  }

  lemma SumAppend(pcs: seq<Pc>, pc: Pc, weight: Pc -> nat)
    ensures Sum(pcs + [pc], weight) == Sum(pcs, weight) + weight(pc)
  {
    assert (pcs + [pc])[..|pcs|] == pcs;
  }

  lemma {:induction false} SumUpdate(pcs: seq<Pc>, t: nat, pc: Pc, weight: Pc -> nat)
    requires t < |pcs|
    ensures Sum(pcs[t := pc], weight) + weight(pcs[t]) == Sum(pcs, weight) + weight(pc)
  {
    var last := |pcs| - 1;
    if t == last {
      assert pcs[t := pc][..last] == pcs[..last];
    } else {
      SumUpdate(pcs[..last], t, pc, weight);
      assert pcs[t := pc][..last] == pcs[..last][t := pc];
    }
  }

  lemma {:induction false} SumDone(pcs: seq<Pc>, weight: Pc -> nat)
    requires (forall t :: 0 <= t < |pcs| ==> pcs[t] == Done) && weight(Done) == 0
    ensures Sum(pcs, weight) == 0
  {
    if pcs != [] {
      SumDone(pcs[..|pcs| - 1], weight);
    }
  }

  function Accounted(s: State): nat { s.mem.roundWork + Stored(s.mem.found) + Sum(s.threads, Held) }

  lemma ActConserves(mem: Memory, pc: Pc, spurious: bool)
    ensures var (mem', pc') := Act(mem, pc, spurious);
            mem'.roundWork + Stored(mem'.found) + Held(pc') == mem.roundWork + Stored(mem.found) + Held(pc)
  {
    if pc.PushBlock? {
      assert (mem.found + [Block(pc.hash, pc.work)])[..|mem.found|] == mem.found;
    }
  }

  lemma StepConserves(s: State, step: Step)
    requires Enabled(s, step)
    ensures Accounted(Next(s, step)) + Credits(s.calls) == Accounted(s) + Credits(Next(s, step).calls)
  {
    match step {
      case StartShare(call) =>
        SumAppend(s.threads, LoadWork(call.difficulty, call.credited), Held);
        assert (s.calls + [call])[..|s.calls|] == s.calls;
      case StartFound(hash) =>
        SumAppend(s.threads, CheckFound(hash), Held);
      case Advance(t, spurious) =>
        ActConserves(s.mem, s.threads[t], spurious);
        SumUpdate(s.threads, t, Act(s.mem, s.threads[t], spurious).1, Held);
    }
  }

  /** At every moment of every interleaving the round's work, the work stored with
      found blocks and the work calls have in hand are the loaded work plus
      everything credited. */
  lemma {:induction false} RunConserves(ss: seq<State>, steps: seq<Step>, i: nat)
    requires Run(ss, steps) && i < |ss|
    ensures ss[i].mem.roundWork + Stored(ss[i].mem.found) + Sum(ss[i].threads, Held)
         == ss[0].mem.roundWork + Stored(ss[0].mem.found) + Credits(ss[i].calls)
  {
    if i > 0 {
      RunConserves(ss, steps, i - 1);
      assert ss[i - 1 + 1] == Next(ss[i - 1], steps[i - 1]);
      StepConserves(ss[i - 1], steps[i - 1]);
    }
  }

  /** With no call under way nothing is in hand. */
  lemma QuietConserves(ss: seq<State>, steps: seq<Step>, i: nat)
    requires Run(ss, steps) && i < |ss| && Quiescent(ss[i])
    ensures ss[i].mem.roundWork + Stored(ss[i].mem.found)
         == ss[0].mem.roundWork + Stored(ss[0].mem.found) + Credits(ss[i].calls)
  {
    RunConserves(ss, steps, i);
    SumDone(ss[i].threads, Held);
  }

  // ----- Best shares -----

  /** The difficulty a call may still raise the all-time best to. */
  function BestWait(pc: Pc): Option<nat> {
    match pc
    case LoadWork(d, _) => Some(d)
    case AddWork(d, _, _) => Some(d)
    case LoadBest(d) => Some(d)
    case RaiseBest(d, _) => Some(d)
    case _ => None
  }

  /** The same for the session best. */
  function SessionWait(pc: Pc): Option<nat> {
    match pc
    case LoadSessionBest(d) => Some(d)
    case RaiseSessionBest(d, _) => Some(d)
    case _ => BestWait(pc)
  }

  predicate Submitted(calls: seq<Call>, d: nat) { exists k :: 0 <= k < |calls| && calls[k].difficulty == d }

  predicate Waiting(threads: seq<Pc>, wait: Pc -> Option<nat>, d: nat) {
    exists t :: 0 <= t < |threads| && wait(threads[t]) == Some(d)
  }

  /** The record is the loaded value or some share's difficulty, and every share it
      does not reach still has its call on the way. */
  ghost predicate Reached(value: nat, base: nat, s: State, wait: Pc -> Option<nat>) {
    && base <= value && (value == base || Submitted(s.calls, value))
    && (forall t :: 0 <= t < |s.threads| && wait(s.threads[t]).Some? ==> Submitted(s.calls, wait(s.threads[t]).value))
    && (forall k :: 0 <= k < |s.calls| ==> s.calls[k].difficulty <= value || Waiting(s.threads, wait, s.calls[k].difficulty))
  }

  /** One call moves: it still waits, or the record has reached its difficulty. */
  lemma AdvanceReaches(v: nat, v': nat, base: nat, s: State, q: State, t: nat, wait: Pc -> Option<nat>)
    requires Reached(v, base, s, wait) && t < |s.threads| == |q.threads| && q.calls == s.calls
    requires q.threads == s.threads[t := q.threads[t]]
    requires v' == v || (v < v' && wait(s.threads[t]) == Some(v'))
    requires wait(q.threads[t]) == wait(s.threads[t]) || (wait(q.threads[t]) == None && (wait(s.threads[t]) == None || wait(s.threads[t]).value <= v'))
    ensures Reached(v', base, q, wait)
  {
    forall k | 0 <= k < |q.calls| ensures q.calls[k].difficulty <= v' || Waiting(q.threads, wait, q.calls[k].difficulty) {
      var d := q.calls[k].difficulty;
      if d > v' {
        var u :| 0 <= u < |s.threads| && wait(s.threads[u]) == Some(d);
        assert wait(q.threads[u]) == Some(d);
      }
    }
  }

  lemma StartReaches(v: nat, base: nat, s: State, call: Call, pc: Pc, wait: Pc -> Option<nat>)
    requires Reached(v, base, s, wait) && wait(pc) == Some(call.difficulty)
    ensures Reached(v, base, State(s.mem, s.threads + [pc], s.calls + [call]), wait)
  {
    var q := State(s.mem, s.threads + [pc], s.calls + [call]);
    forall d | Submitted(s.calls, d) ensures Submitted(q.calls, d) {
      var k :| 0 <= k < |s.calls| && s.calls[k].difficulty == d;
      assert q.calls[k] == s.calls[k];
    }
    assert q.calls[|s.calls|] == call && q.threads[|s.threads|] == pc;
    forall k | 0 <= k < |q.calls| ensures q.calls[k].difficulty <= v || Waiting(q.threads, wait, q.calls[k].difficulty) {
      var d := q.calls[k].difficulty;
      if k < |s.calls| && d > v {
        assert s.calls[k] == q.calls[k];
        var u :| 0 <= u < |s.threads| && wait(s.threads[u]) == Some(d);
        assert q.threads[u] == s.threads[u];
      }
    }
  }

  lemma FoundReaches(v: nat, base: nat, s: State, pc: Pc, wait: Pc -> Option<nat>)
    requires Reached(v, base, s, wait) && wait(pc) == None
    ensures Reached(v, base, State(s.mem, s.threads + [pc], s.calls), wait)
  {
    var q := State(s.mem, s.threads + [pc], s.calls);
    forall k | 0 <= k < |q.calls| ensures q.calls[k].difficulty <= v || Waiting(q.threads, wait, q.calls[k].difficulty) {
      var d := q.calls[k].difficulty;
      if d > v {
        var u :| 0 <= u < |s.threads| && wait(s.threads[u]) == Some(d);
        assert q.threads[u] == s.threads[u];
      }
    }
  }

  /** A comparison that let a call go home was made against a value the record had. */
  ghost predicate Seen(s: State) {
    forall t :: 0 <= t < |s.threads| ==>
      && (s.threads[t].RaiseBest? ==> s.threads[t].prev <= s.mem.best)
      && (s.threads[t].RaiseSessionBest? ==> s.threads[t].prev <= s.mem.sessionBest)
  }

  lemma StepSeen(s: State, step: Step)
    requires Seen(s) && Enabled(s, step)
    ensures Seen(Next(s, step))
    ensures s.mem.best <= Next(s, step).mem.best && s.mem.sessionBest <= Next(s, step).mem.sessionBest
  {
  }

  lemma StepReachesBest(s: State, step: Step, base: nat)
    requires Reached(s.mem.best, base, s, BestWait) && Seen(s) && Enabled(s, step)
    ensures Reached(Next(s, step).mem.best, base, Next(s, step), BestWait)
  {
    match step {
      case StartShare(call) =>
        StartReaches(s.mem.best, base, s, call, LoadWork(call.difficulty, call.credited), BestWait);
      case StartFound(hash) => FoundReaches(s.mem.best, base, s, CheckFound(hash), BestWait);
      case Advance(t, spurious) => AdvanceReaches(s.mem.best, Next(s, step).mem.best, base, s, Next(s, step), t, BestWait);
    }
  }

  lemma StepReachesSessionBest(s: State, step: Step, base: nat)
    requires Reached(s.mem.sessionBest, base, s, SessionWait) && Seen(s) && Enabled(s, step)
    ensures Reached(Next(s, step).mem.sessionBest, base, Next(s, step), SessionWait)
  {
    match step {
      case StartShare(call) =>
        StartReaches(s.mem.sessionBest, base, s, call, LoadWork(call.difficulty, call.credited), SessionWait);
      case StartFound(hash) => FoundReaches(s.mem.sessionBest, base, s, CheckFound(hash), SessionWait);
      case Advance(t, spurious) =>
        AdvanceReaches(s.mem.sessionBest, Next(s, step).mem.sessionBest, base, s, Next(s, step), t, SessionWait);
    }
  }

  lemma {:induction false} RunReaches(ss: seq<State>, steps: seq<Step>, i: nat)
    requires Run(ss, steps) && i < |ss|
    ensures Seen(ss[i]) && Reached(ss[i].mem.best, ss[0].mem.best, ss[i], BestWait)
    ensures Reached(ss[i].mem.sessionBest, ss[0].mem.sessionBest, ss[i], SessionWait)
  {
    if i > 0 {
      RunReaches(ss, steps, i - 1);
      assert ss[i - 1 + 1] == Next(ss[i - 1], steps[i - 1]);
      StepSeen(ss[i - 1], steps[i - 1]);
      StepReachesBest(ss[i - 1], steps[i - 1], ss[0].mem.best);
      StepReachesSessionBest(ss[i - 1], steps[i - 1], ss[0].mem.sessionBest);
    }
  }

  /** The largest of the loaded value and all submitted difficulties. */
  ghost predicate IsMax(value: nat, base: nat, calls: seq<Call>) {
    && (value == base || Submitted(calls, value)) && base <= value
    && forall k :: 0 <= k < |calls| ==> calls[k].difficulty <= value
  }

  /** With no call under way both records are the maximum of what they started from
      and every share submitted. */
  lemma QuietBestIsMax(ss: seq<State>, steps: seq<Step>, i: nat)
    requires Run(ss, steps) && i < |ss| && Quiescent(ss[i])
    ensures IsMax(ss[i].mem.best, ss[0].mem.best, ss[i].calls)
    ensures IsMax(ss[i].mem.sessionBest, ss[0].mem.sessionBest, ss[i].calls)
  {
    RunReaches(ss, steps, i);
  }

  // ----- Found blocks -----

  ghost predicate Distinct(found: seq<Block>) {
    forall i, j :: 0 <= i < j < |found| ==> found[i].hash != found[j].hash
  }

  /** The call has found its block unlisted and has yet to list it. */
  predicate PastCheck(pc: Pc, hash: string) {
    (pc.SwapWork? || pc.CountBlock? || pc.PushBlock?) && pc.hash == hash
  }

  function Claims(hash: string): Pc -> nat { pc => if PastCheck(pc, hash) then 1 else 0 }

  function Entries(found: seq<Block>, hash: string): nat {
    if found == [] then 0
    else Entries(found[..|found| - 1], hash) + if found[|found| - 1].hash == hash then 1 else 0
  }

  /** Entries of a block, and calls that are going to make one. */
  function Tally(s: State, hash: string): nat { Entries(s.mem.found, hash) + Sum(s.threads, Claims(hash)) }

  /** Two calls for the block are past their check at once. */
  ghost predicate Twice(pcs: seq<Pc>, hash: string) {
    exists t, u :: 0 <= t < u < |pcs| && PastCheck(pcs[t], hash) && PastCheck(pcs[u], hash)
  }

  ghost predicate Overlap(s: State) { exists hash :: Twice(s.threads, hash) }

  lemma {:induction false} OneClaim(pcs: seq<Pc>, hash: string)
    ensures Sum(pcs, Claims(hash)) >= 1 <==> exists t :: 0 <= t < |pcs| && PastCheck(pcs[t], hash)
  {
    if pcs != [] {
      var (init, n) := (pcs[..|pcs| - 1], |pcs| - 1);
      OneClaim(init, hash);
      if t :| 0 <= t < n && PastCheck(pcs[t], hash) {
        assert PastCheck(init[t], hash);
      }
    }
  }

  lemma {:induction false} TwoClaims(pcs: seq<Pc>, hash: string)
    ensures Sum(pcs, Claims(hash)) >= 2 <==> Twice(pcs, hash)
  {
    if pcs != [] {
      var (init, n) := (pcs[..|pcs| - 1], |pcs| - 1);
      TwoClaims(init, hash);
      OneClaim(init, hash);
      LastOfTwo(pcs, init, n, hash);
    }
  }

  lemma LastOfTwo(pcs: seq<Pc>, init: seq<Pc>, n: nat, hash: string)
    requires |pcs| == n + 1 && init == pcs[..n]
    ensures Twice(pcs, hash) <==>
      Twice(init, hash) || (PastCheck(pcs[n], hash) && exists t :: 0 <= t < n && PastCheck(init[t], hash))
  {
    if Twice(pcs, hash) {
      var t, u :| 0 <= t < u < |pcs| && PastCheck(pcs[t], hash) && PastCheck(pcs[u], hash);
      assert PastCheck(init[t], hash);
      assert u < n ==> PastCheck(init[u], hash);
    }
    if Twice(init, hash) {
      var t, u :| 0 <= t < u < n && PastCheck(init[t], hash) && PastCheck(init[u], hash);
      assert PastCheck(pcs[t], hash) && PastCheck(pcs[u], hash);
    }
    if t :| 0 <= t < n && PastCheck(init[t], hash) {
      assert PastCheck(pcs[t], hash);
    }
  }

  lemma {:induction false} NoEntry(found: seq<Block>, hash: string)
    ensures Entries(found, hash) == 0 <==> !Known(found, hash)
  {
    if found != [] {
      var init := found[..|found| - 1];
      NoEntry(init, hash);
      if i :| 0 <= i < |init| && found[i].hash == hash {
        assert init[i].hash == hash;
      }
    }
  }

  /** A list is distinct exactly when no hash is in it twice. */
  lemma {:induction false} DistinctIff(found: seq<Block>)
    ensures Distinct(found) <==> forall hash :: Entries(found, hash) <= 1
  {
    if found != [] {
      var (init, last) := (found[..|found| - 1], found[|found| - 1]);
      DistinctIff(init);
      NoEntry(init, last.hash);
      if Distinct(found) {
        assert Distinct(init) && !Known(init, last.hash);
        forall hash ensures Entries(found, hash) <= 1 {
          assert Entries(init, hash) <= 1;
        }
      } else {
        RepeatAtEnd(found, init, last);
        if Distinct(init) {
          assert Entries(found, last.hash) >= 2;
        } else {
          var hash :| Entries(init, hash) > 1;
          assert Entries(found, hash) > 1;
        }
      }
    }
  }

  lemma RepeatAtEnd(found: seq<Block>, init: seq<Block>, last: Block)
    requires found == init + [last] && !Distinct(found)
    ensures !Distinct(init) || Known(init, last.hash)
  {
    var i, j :| 0 <= i < j < |found| && found[i].hash == found[j].hash;
    assert init[i] == found[i];
    if j < |init| {
      assert init[j] == found[j];
    }
  }

  lemma EntriesOneMore(found: seq<Block>, b: Block, hash: string)
    ensures Entries(found + [b], hash) == Entries(found, hash) + if b.hash == hash then 1 else 0
  {
    assert (found + [b])[..|found|] == found;
  }

  /** The tally of a block grows, by one, only when a check for it passes. */
  lemma StepTallies(s: State, step: Step, hash: string)
    requires Enabled(s, step)
    ensures var q := Next(s, step);
            || Tally(q, hash) == Tally(s, hash)
            || (Tally(q, hash) == Tally(s, hash) + 1 && Entries(q.mem.found, hash) == 0)
  {
    var w := Claims(hash);
    match step {
      case StartShare(call) => SumAppend(s.threads, LoadWork(call.difficulty, call.credited), w);
      case StartFound(h) => SumAppend(s.threads, CheckFound(h), w);
      case Advance(t, spurious) =>
        var pc := s.threads[t];
        SumUpdate(s.threads, t, Act(s.mem, pc, spurious).1, w);
        ActTallies(s.mem, pc, spurious, hash);
    }
  }

  lemma ActTallies(mem: Memory, pc: Pc, spurious: bool, hash: string)
    ensures var (mem', pc') := Act(mem, pc, spurious);
            var (before, after) := (Entries(mem.found, hash) + Claims(hash)(pc), Entries(mem'.found, hash) + Claims(hash)(pc'));
            after == before || (after == before + 1 && Entries(mem.found, hash) == 0 && mem'.found == mem.found)
  {
    if pc.CheckFound? {
      NoEntry(mem.found, pc.hash);
    } else if pc.PushBlock? {
      EntriesOneMore(mem.found, Block(pc.hash, pc.work), hash);
    } else {
      ActKeepsClaim(mem, pc, spurious, hash);
    }
  }

  lemma ActKeepsClaim(mem: Memory, pc: Pc, spurious: bool, hash: string)
    requires !pc.CheckFound? && !pc.PushBlock?
    ensures var (mem', pc') := Act(mem, pc, spurious); mem'.found == mem.found && (PastCheck(pc', hash) <==> PastCheck(pc, hash))
  {
  }

  lemma {:induction false} TallyGrows(ss: seq<State>, steps: seq<Step>, i: nat, j: nat, hash: string)
    requires Run(ss, steps) && i <= j < |ss|
    ensures Tally(ss[i], hash) <= Tally(ss[j], hash)
  {
    if i < j {
      TallyGrows(ss, steps, i, j - 1, hash);
      assert ss[j - 1 + 1] == Next(ss[j - 1], steps[j - 1]);
      StepTallies(ss[j - 1], steps[j - 1], hash);
    }
  }

  /** A tally of two has gone through a moment with two calls past their check. */
  lemma {:induction false} SecondClaim(ss: seq<State>, steps: seq<Step>, i: nat, hash: string) returns (j: nat)
    requires Run(ss, steps) && i < |ss| && Tally(ss[0], hash) <= 1 && Tally(ss[i], hash) >= 2
    ensures j <= i && Twice(ss[j].threads, hash) && Overlap(ss[j])
  {
    if Tally(ss[i - 1], hash) >= 2 {
      j := SecondClaim(ss, steps, i - 1, hash);
    } else {
      assert ss[i - 1 + 1] == Next(ss[i - 1], steps[i - 1]);
      StepTallies(ss[i - 1], steps[i - 1], hash);
      TwoClaims(ss[i].threads, hash);
      j := i;
    }
  }

  lemma StartTally(ss: seq<State>, steps: seq<Step>, hash: string)
    requires Run(ss, steps) && Distinct(ss[0].mem.found)
    ensures Tally(ss[0], hash) <= 1
  {
    DistinctIff(ss[0].mem.found);
    assert Entries(ss[0].mem.found, hash) <= 1 && ss[0].threads == [];
  }

  /** While no two calls for one block have been past their check at once, no block is
      listed twice, whatever else overlaps. */
  lemma RunDistinct(ss: seq<State>, steps: seq<Step>, i: nat)
    requires Run(ss, steps) && i < |ss| && Distinct(ss[0].mem.found)
    requires forall j :: 0 <= j <= i ==> !Overlap(ss[j])
    ensures Distinct(ss[i].mem.found)
  {
    forall hash ensures Entries(ss[i].mem.found, hash) <= 1 {
      StartTally(ss, steps, hash);
      if Tally(ss[i], hash) >= 2 {
        var _ := SecondClaim(ss, steps, i, hash);
      }
    }
    DistinctIff(ss[i].mem.found);
  }

  /** And that is exact: a run that has come to rest lists every block once if and only if
      at no moment two calls for one block were past their check. */
  lemma QuietDistinctIff(ss: seq<State>, steps: seq<Step>, i: nat)
    requires Run(ss, steps) && i < |ss| && Distinct(ss[0].mem.found) && Quiescent(ss[i])
    ensures Distinct(ss[i].mem.found) <==> forall j :: 0 <= j <= i ==> !Overlap(ss[j])
  {
    if forall j :: 0 <= j <= i ==> !Overlap(ss[j]) {
      RunDistinct(ss, steps, i);
    } else {
      var j :| 0 <= j <= i && Overlap(ss[j]);
      var hash :| Twice(ss[j].threads, hash);
      OverlapLasts(ss, steps, j, i, hash);
      DistinctIff(ss[i].mem.found);
    }
  }

  lemma OverlapLasts(ss: seq<State>, steps: seq<Step>, j: nat, i: nat, hash: string)
    requires Run(ss, steps) && j <= i < |ss| && Twice(ss[j].threads, hash) && Quiescent(ss[i])
    ensures Entries(ss[i].mem.found, hash) >= 2
  {
    TwoClaims(ss[j].threads, hash);
    TallyGrows(ss, steps, j, i, hash);
    SumDone(ss[i].threads, Claims(hash));
  }

  /** The counter is ahead of the list by the calls about to push. */
  lemma StepCounts(s: State, step: Step)
    requires Enabled(s, step)
    ensures var q := Next(s, step);
            q.mem.blocksFound + |s.mem.found| + Sum(s.threads, AtPush)
            == s.mem.blocksFound + |q.mem.found| + Sum(q.threads, AtPush)
  {
    match step {
      case StartShare(call) => SumAppend(s.threads, LoadWork(call.difficulty, call.credited), AtPush);
      case StartFound(hash) => SumAppend(s.threads, CheckFound(hash), AtPush);
      case Advance(t, spurious) => SumUpdate(s.threads, t, Act(s.mem, s.threads[t], spurious).1, AtPush);
    }
  }

  lemma {:induction false} RunCounts(ss: seq<State>, steps: seq<Step>, i: nat)
    requires Run(ss, steps) && i < |ss|
    ensures ss[i].mem.blocksFound + |ss[0].mem.found| == ss[0].mem.blocksFound + |ss[i].mem.found| + Sum(ss[i].threads, AtPush)
  {
    if i > 0 {
      RunCounts(ss, steps, i - 1);
      assert ss[i - 1 + 1] == Next(ss[i - 1], steps[i - 1]);
      StepCounts(ss[i - 1], steps[i - 1]);
    }
  }

  /** With no call under way the counter has moved by exactly the blocks listed. */
  lemma QuietCounts(ss: seq<State>, steps: seq<Step>, i: nat)
    requires Run(ss, steps) && i < |ss| && Quiescent(ss[i])
    ensures ss[i].mem.blocksFound - ss[0].mem.blocksFound == |ss[i].mem.found| - |ss[0].mem.found|
  {
    RunCounts(ss, steps, i);
    SumDone(ss[i].threads, AtPush);
  }

  // ----- What the calls are for -----

  /** How many operations an undisturbed call has left; a value it loaded that has since
      changed costs one more. */
  function Left(mem: Memory, pc: Pc): (n: nat)
    ensures n <= 6
  {
    match pc
    case LoadWork(_, _) => 6
    case AddWork(_, _, prev) => if mem.roundWork == prev then 5 else 6
    case LoadBest(_) => 4
    case RaiseBest(d, prev) => if d <= prev || mem.best == prev then 3 else 4
    case LoadSessionBest(_) => 2
    case RaiseSessionBest(d, prev) => if d <= prev || mem.sessionBest == prev then 1 else 2
    case CheckFound(_) => 4
    case SwapWork(_) => 3
    case CountBlock(_, _) => 2
    case PushBlock(_, _) => 1
    case Done => 0
  }

  lemma LeftFalls(mem: Memory, pc: Pc)
    ensures var (mem', pc') := Act(mem, pc, false); Left(mem', pc') < Left(mem, pc) || pc == pc' == Done
  {
  }

  /** A call run to its end with no other in between and no operation failing for no
      reason; from any moment that takes at most six operations. */
  function Undisturbed(mem: Memory, pc: Pc): Memory
    decreases Left(mem, pc)
  {
    if pc.Done? then mem
    else
      LeftFalls(mem, pc);
      var (mem', pc') := Act(mem, pc, false);
      Undisturbed(mem', pc')
  }

  function Larger(a: nat, b: nat): nat { if a < b then b else a }

  lemma SessionBestAlone(mem: Memory, d: nat)
    ensures Undisturbed(mem, LoadSessionBest(d)) == mem.(sessionBest := Larger(mem.sessionBest, d))
  {
    var raised := mem.(sessionBest := Larger(mem.sessionBest, d));
    Unfold(mem, LoadSessionBest(d), mem, RaiseSessionBest(d, mem.sessionBest));
    Unfold(mem, RaiseSessionBest(d, mem.sessionBest), raised, Done);
  }

  lemma BestAlone(mem: Memory, d: nat)
    ensures Undisturbed(mem, LoadBest(d))
         == mem.(best := Larger(mem.best, d), sessionBest := Larger(mem.sessionBest, d))
  {
    var raised := mem.(best := Larger(mem.best, d));
    Unfold(mem, LoadBest(d), mem, RaiseBest(d, mem.best));
    Unfold(mem, RaiseBest(d, mem.best), raised, LoadSessionBest(d));
    SessionBestAlone(raised, d);
  }

  /** `share_accepted` undisturbed: the credited work is added and both bests are raised. */
  lemma ShareAlone(mem: Memory, d: nat, c: nat)
    ensures Undisturbed(mem, LoadWork(d, c))
         == mem.(roundWork := mem.roundWork + c, best := Larger(mem.best, d), sessionBest := Larger(mem.sessionBest, d))
  {
    var added := mem.(roundWork := mem.roundWork + c);
    Unfold(mem, LoadWork(d, c), mem, AddWork(d, c, mem.roundWork));
    Unfold(mem, AddWork(d, c, mem.roundWork), added, LoadBest(d));
    BestAlone(added, d);
  }

  lemma ListAlone(mem: Memory, hash: string, work: nat)
    ensures Undisturbed(mem, CountBlock(hash, work))
         == mem.(blocksFound := mem.blocksFound + 1, found := mem.found + [Block(hash, work)])
  {
    var counted := mem.(blocksFound := mem.blocksFound + 1);
    Unfold(mem, CountBlock(hash, work), counted, PushBlock(hash, work));
    PushAlone(counted, hash, work);
  }

  lemma Unfold(mem: Memory, pc: Pc, mem': Memory, pc': Pc)
    requires pc != Done && Act(mem, pc, false) == (mem', pc')
    ensures Undisturbed(mem, pc) == Undisturbed(mem', pc')
  {
  }

  lemma PushAlone(mem: Memory, hash: string, work: nat)
    ensures Undisturbed(mem, PushBlock(hash, work)) == mem.(found := mem.found + [Block(hash, work)])
  {
    Unfold(mem, PushBlock(hash, work), mem.(found := mem.found + [Block(hash, work)]), Done);
  }

  /** `block_found` undisturbed: a new block closes the round and is counted and listed
      with its work, a listed one changes nothing. */
  lemma FoundAlone(mem: Memory, hash: string)
    ensures Undisturbed(mem, CheckFound(hash))
         == if Known(mem.found, hash) then mem
            else mem.(roundWork := 0, blocksFound := mem.blocksFound + 1, found := mem.found + [Block(hash, mem.roundWork)])
  {
    if !Known(mem.found, hash) {
      var closed := mem.(roundWork := 0);
      Unfold(mem, CheckFound(hash), mem, SwapWork(hash));
      Unfold(mem, SwapWork(hash), closed, CountBlock(hash, mem.roundWork));
      ListAlone(closed, hash, mem.roundWork);
    }
  }

  /** The call for a block is on its way to listing it, or it is listed. */
  ghost predicate OnItsWay(s: State, hash: string) {
    || Known(s.mem.found, hash)
    || exists t :: 0 <= t < |s.threads| && ClaimsBlock(s.threads[t], hash)
  }

  predicate ClaimsBlock(pc: Pc, hash: string) { pc == CheckFound(hash) || PastCheck(pc, hash) }

  lemma ActClaims(mem: Memory, pc: Pc, spurious: bool, hash: string)
    requires ClaimsBlock(pc, hash)
    ensures var (mem', pc') := Act(mem, pc, spurious); ClaimsBlock(pc', hash) || Known(mem'.found, hash)
  {
    if pc.PushBlock? {
      assert (mem.found + [Block(hash, pc.work)])[|mem.found|].hash == hash;
    }
  }

  lemma StaysKnown(s: State, step: Step, hash: string)
    requires Enabled(s, step) && Known(s.mem.found, hash)
    ensures Known(Next(s, step).mem.found, hash)
  {
    var i :| 0 <= i < |s.mem.found| && s.mem.found[i].hash == hash;
    assert Next(s, step).mem.found[i].hash == hash;
  }

  lemma StepOnItsWay(s: State, step: Step, hash: string)
    requires Enabled(s, step) && (OnItsWay(s, hash) || step == StartFound(hash))
    ensures OnItsWay(Next(s, step), hash)
  {
    var q := Next(s, step);
    if Known(s.mem.found, hash) {
      StaysKnown(s, step, hash);
    } else if step == StartFound(hash) {
      assert ClaimsBlock(q.threads[|s.threads|], hash);
    } else {
      var t :| 0 <= t < |s.threads| && ClaimsBlock(s.threads[t], hash);
      if step.Advance? && step.thread == t {
        ActClaims(s.mem, s.threads[t], step.spurious, hash);
      }
      assert q.threads[t] == s.threads[t] || (step.Advance? && step.thread == t);
    }
  }

  /** Nothing is listed, or on its way, that was not reported. */
  ghost predicate Reported(ss: seq<State>, steps: seq<Step>, i: nat, hash: string)
    requires i <= |steps| < |ss|
  {
    Known(ss[0].mem.found, hash) || exists j :: 0 <= j < i && steps[j] == StartFound(hash)
  }

  lemma StepReported(s: State, step: Step, hash: string)
    requires Enabled(s, step) && OnItsWay(Next(s, step), hash) && step != StartFound(hash)
    ensures OnItsWay(s, hash)
  {
    var q := Next(s, step);
    if Known(q.mem.found, hash) {
      var i :| 0 <= i < |q.mem.found| && q.mem.found[i].hash == hash;
      if i < |s.mem.found| {
        assert s.mem.found[i].hash == hash;
      } else {
        assert ClaimsBlock(s.threads[step.thread], hash);
      }
    } else {
      var t :| 0 <= t < |q.threads| && ClaimsBlock(q.threads[t], hash);
      assert t < |s.threads| && ClaimsBlock(s.threads[t], hash);
    }
  }

  /** In every interleaving a block is listed or on its way exactly when it was listed at
      the start or reported since. */
  lemma {:induction false} RunListsIff(ss: seq<State>, steps: seq<Step>, i: nat, hash: string)
    requires Run(ss, steps) && i < |ss|
    ensures OnItsWay(ss[i], hash) <==> Reported(ss, steps, i, hash)
  {
    if i > 0 {
      RunListsIff(ss, steps, i - 1, hash);
      assert ss[i - 1 + 1] == Next(ss[i - 1], steps[i - 1]);
      if OnItsWay(ss[i - 1], hash) || steps[i - 1] == StartFound(hash) {
        StepOnItsWay(ss[i - 1], steps[i - 1], hash);
      } else if OnItsWay(ss[i], hash) {
        StepReported(ss[i - 1], steps[i - 1], hash);
      }
    }
  }

  /** With no call under way it is listed exactly then. */
  lemma QuietListsIff(ss: seq<State>, steps: seq<Step>, i: nat, hash: string)
    requires Run(ss, steps) && i < |ss| && Quiescent(ss[i])
    ensures Known(ss[i].mem.found, hash) <==> Reported(ss, steps, i, hash)
  {
    RunListsIff(ss, steps, i, hash);
  }

  // ----- A run that lists a block twice -----

  ghost predicate Reaches(start: State, s: State) {
    exists ss: seq<State>, steps: seq<Step> :: Run(ss, steps) && ss[0] == start && ss[|ss| - 1] == s
  }

  lemma StepReaches(start: State, s: State, step: Step)
    requires Reaches(start, s) && Enabled(s, step)
    ensures Reaches(start, Next(s, step))
  {
    var ss: seq<State>, steps: seq<Step> :| Run(ss, steps) && ss[0] == start && ss[|ss| - 1] == s;
    var (longer, more) := (ss + [Next(s, step)], steps + [step]);
    forall i | 0 <= i < |more| ensures Enabled(longer[i], more[i]) && longer[i + 1] == Next(longer[i], more[i]) {
      assert i < |steps| ==> longer[i] == ss[i] && longer[i + 1] == ss[i + 1] && more[i] == steps[i];
    }
    assert Run(longer, more);
  }

  /** The call of thread `t` past its check runs to its end. */
  lemma CloseReaches(start: State, s: State, t: nat) returns (q: State)
    requires Reaches(start, s) && t < |s.threads| && s.threads[t].SwapWork?
    ensures Reaches(start, q) && q.threads == s.threads[t := Done]
    ensures q.mem.found == s.mem.found + [Block(s.threads[t].hash, s.mem.roundWork)]
  {
    var a := Next(s, Advance(t, false));
    StepReaches(start, s, Advance(t, false));
    var b := Next(a, Advance(t, false));
    StepReaches(start, a, Advance(t, false));
    q := Next(b, Advance(t, false));
    StepReaches(start, b, Advance(t, false));
  }

  lemma BothCheckReaches(start: State, hash: string) returns (s: State)
    requires start.threads == [] && start.calls == [] && !Known(start.mem.found, hash)
    ensures Reaches(start, s) && s.threads == [SwapWork(hash), SwapWork(hash)] && s.mem.found == start.mem.found
  {
    assert Run([start], []);
    var a := Next(start, StartFound(hash));
    StepReaches(start, start, StartFound(hash));
    var b := Next(a, StartFound(hash));
    StepReaches(start, a, StartFound(hash));
    var c := Next(b, Advance(0, false));
    StepReaches(start, b, Advance(0, false));
    s := Next(c, Advance(1, false));
    StepReaches(start, c, Advance(1, false));
  }

  /** From any start, two calls for a new block that both check before either lists it
      end with the block listed twice. */
  lemma OverlapListsTwice(start: State, hash: string)
    requires start.threads == [] && start.calls == [] && !Known(start.mem.found, hash)
    ensures exists s :: Reaches(start, s) && Quiescent(s) && !Distinct(s.mem.found)
  {
    var both := BothCheckReaches(start, hash);
    var once := CloseReaches(start, both, 0);
    var twice := CloseReaches(start, once, 1);
    var n := |start.mem.found|;
    assert twice.mem.found[n].hash == twice.mem.found[n + 1].hash;
  }
}
