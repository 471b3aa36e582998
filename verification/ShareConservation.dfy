/** Exactly when credited work is lost between sessions, for any number of sessions of a
    worker (src/mining/vardiff.rs, src/stats.rs).

    A worker's shares may be spread over its parked record and several sessions. All of
    them together are compared with the worker's log. */
module ShareConservation {
  import opened ShareRecord
  import opened WorkerStats
  import opened Sessions
  import opened ShareHandoff
  import opened Wrappers

  // ----- Everything held for a worker -----

  function SharesAt(p: Pool, sid: Sid, w: Worker): seq<Share> {
    if CarriedBy(p, sid, w).Some? then CarriedBy(p, sid, w).value.shares else []
  }

  /** What the sessions below `n` carry. */
  function CarriedBelow(p: Pool, w: Worker, n: nat): seq<Share> {
    if n == 0 then [] else CarriedBelow(p, w, n - 1) + SharesAt(p, n - 1, w)
  }

  /** No session number is this high. */
  ghost function Above(sids: set<Sid>): (n: nat)
    ensures forall sid :: sid in sids ==> sid < n
  {
    if sids == {} then 0
    else
      var sid :| sid in sids;
      var n := Above(sids - {sid});
      assert forall other :: other in sids ==> other == sid || other in sids - {sid};
      if n <= sid then sid + 1 else n
  }

  /** All shares held for the worker: parked, then session by session. */
  ghost function Gathered(p: Pool, w: Worker): seq<Share> {
    ParkedShares(p, w) + CarriedBelow(p, w, Above(p.sessions.Keys))
  }

  ghost function Held(p: Pool, w: Worker): multiset<Share> { multiset(Gathered(p, w)) }

  ghost function Logged(p: Pool, w: Worker): multiset<Share> { multiset(Log(p, w)) }

  /** Every share a 24-hour window can see is held exactly as often as it was accepted. */
  ghost predicate Conserved(p: Pool, w: Worker) {
    forall x: Share :: Within(x, p.now, RETENTION) ==> Held(p, w)[x] == Logged(p, w)[x]
  }

  lemma {:induction false} BeyondAll(p: Pool, w: Worker, m: nat, n: nat)
    requires m <= n && forall sid :: sid in p.sessions ==> sid < m
    ensures CarriedBelow(p, w, n) == CarriedBelow(p, w, m)
  {
    if m < n {
      BeyondAll(p, w, m, n - 1);
      assert SharesAt(p, n - 1, w) == [];
    }
  }

  /** How often a share is with one session, and with all below `n`. */
  function CountAt(p: Pool, sid: Sid, w: Worker, x: Share): nat { multiset(SharesAt(p, sid, w))[x] }

  function SumBelow(f: nat -> nat, n: nat): nat {
    if n == 0 then 0 else SumBelow(f, n - 1) + f(n - 1)
  }

  function CountBelow(p: Pool, w: Worker, n: nat, x: Share): nat {
    SumBelow(sid => CountAt(p, sid, w, x), n)
  }

  lemma {:induction false} CountsBelow(p: Pool, w: Worker, n: nat, x: Share)
    ensures multiset(CarriedBelow(p, w, n))[x] == CountBelow(p, w, n, x)
  {
    if n > 0 {
      CountsBelow(p, w, n - 1, x);
    }
  }

  lemma {:induction false} SumDiffers(f: nat -> nat, g: nat -> nat, k: nat, n: nat)
    requires forall i :: 0 <= i != k ==> f(i) == g(i)
    ensures SumBelow(g, n) + (if k < n then f(k) else 0) == SumBelow(f, n) + if k < n then g(k) else 0
  {
    if n > 0 {
      SumDiffers(f, g, k, n - 1);
    }
  }

  lemma OneSessionBelow(p: Pool, q: Pool, sid: Sid, w: Worker, n: nat, x: Share)
    requires OnlyAt(p, q, sid) && sid < n
    ensures CountBelow(q, w, n, x) + CountAt(p, sid, w, x) == CountBelow(p, w, n, x) + CountAt(q, sid, w, x)
  {
    forall other: nat | other != sid ensures CountAt(q, other, w, x) == CountAt(p, other, w, x) {
      SameElsewhere(p, q, sid, other, w, x);
    }
    SumDiffers(i => CountAt(p, i, w, x), i => CountAt(q, i, w, x), sid, n);
  }

  lemma SameElsewhere(p: Pool, q: Pool, sid: Sid, other: Sid, w: Worker, x: Share)
    requires OnlyAt(p, q, sid) && other != sid
    ensures CountAt(q, other, w, x) == CountAt(p, other, w, x)
  {
    assert CarriedBy(q, other, w) == CarriedBy(p, other, w);
  }

  /** The parked record and one session's. */
  function Here(p: Pool, sid: Sid, w: Worker, x: Share): nat {
    multiset(ParkedShares(p, w))[x] + CountAt(p, sid, w, x)
  }

  lemma HeldParts(p: Pool, w: Worker, n: nat, x: Share)
    requires Above(p.sessions.Keys) <= n
    ensures Held(p, w)[x] == multiset(ParkedShares(p, w))[x] + CountBelow(p, w, n, x)
  {
    BeyondAll(p, w, Above(p.sessions.Keys), n);
    CountsBelow(p, w, n, x);
  }

  /** A step of one session changes the total by what it changes there. */
  lemma HeldChange(p: Pool, q: Pool, sid: Sid, w: Worker, x: Share)
    requires OnlyAt(p, q, sid)
    ensures Held(q, w)[x] + Here(p, sid, w, x) == Held(p, w)[x] + Here(q, sid, w, x)
  {
    var n := Above(p.sessions.Keys) + Above(q.sessions.Keys) + sid + 1;
    HeldParts(p, w, n, x);
    HeldParts(q, w, n, x);
    OneSessionBelow(p, q, sid, w, n, x);
  }

  // ----- What the record operations do to single shares -----

  lemma {:induction false} RetainedCount(shares: seq<Share>, now: nat, x: Share)
    ensures multiset(Retained(shares, now))[x] == if Within(x, now, RETENTION) then multiset(shares)[x] else 0
  {
    if shares != [] {
      assert shares == [shares[0]] + shares[1..];
      RetainedCount(shares[1..], now, x);
    }
  }

  lemma {:induction false} EvictCount(shares: seq<Share>, now: nat, x: Share)
    ensures multiset(Evict(shares, now))[x] <= multiset(shares)[x]
    ensures Within(x, now, RETENTION) ==> multiset(Evict(shares, now))[x] == multiset(shares)[x]
  {
    if shares != [] && !Within(shares[0], now, RETENTION) {
      assert shares == [shares[0]] + shares[1..];
      EvictCount(shares[1..], now, x);
    }
  }

  function Once(x: Share, s: Share): nat { if x == s then 1 else 0 }

  lemma OneMore(shares: seq<Share>, s: Share, x: Share)
    ensures multiset(shares + [s])[x] == multiset(shares)[x] + Once(x, s)
  {
  }

  // ----- One step -----

  /** How a step changes the total and the log, share by share. */
  ghost predicate Moved(p: Pool, q: Pool, w: Worker, x: Share, dropped: nat, added: nat) {
    Held(q, w)[x] + dropped == Held(p, w)[x] + added && Logged(q, w)[x] == Logged(p, w)[x] + added
  }

  lemma UntouchedMoves(p: Pool, q: Pool, sid: Sid, w: Worker, x: Share)
    requires OnlyAt(p, q, sid) && SameShelf(p, q, w) && CarriedBy(q, sid, w) == CarriedBy(p, sid, w)
    ensures Moved(p, q, w, x, 0, 0)
  {
    HeldChange(p, q, sid, w, x);
    assert ParkedShares(q, w) == ParkedShares(p, w);
  }

  lemma AdoptMoves(p: Pool, sid: Sid, w: Worker, x: Share) returns (dropped: nat)
    requires Blank(p) && sid in p.sessions && p.sessions[sid].phase == Arriving(w)
    ensures Moved(p, AdoptOf(p, sid, w), w, x, dropped, 0)
    ensures Within(x, p.now, RETENTION) ==> dropped == 0
  {
    var q := AdoptOf(p, sid, w);
    HeldChange(p, q, sid, w, x);
    var parked := ParkedShares(p, w);
    RetainedCount(parked, p.now, x);
    AdoptedShares(p, sid, w);
    dropped := multiset(parked)[x] - multiset(Retained(parked, p.now))[x];
  }

  lemma AdoptedShares(p: Pool, sid: Sid, w: Worker)
    requires Blank(p) && sid in p.sessions && p.sessions[sid].phase == Arriving(w)
    ensures var q := AdoptOf(p, sid, w);
            && OnlyAt(p, q, sid) && Log(q, w) == Log(p, w) && ParkedShares(q, w) == []
            && SharesAt(p, sid, w) == [] && SharesAt(q, sid, w) == Retained(ParkedShares(p, w), p.now)
  {
    assert p.sessions[sid].record.shares == [];
  }

  lemma AcceptedShares(p: Pool, sid: Sid, credited: nat, w: Worker)
    requires sid in p.sessions && p.sessions[sid].phase == Bound(w)
    ensures var (q, s) := (AcceptOf(p, sid, w, credited), Share(p.now, credited));
            && OnlyAt(p, q, sid) && Log(q, w) == Log(p, w) + [s] && ParkedShares(q, w) == ParkedShares(p, w)
            && SharesAt(q, sid, w) == Evict(SharesAt(p, sid, w) + [s], p.now)
  {
    AcceptShape(p, sid, credited, w);
  }

  lemma AcceptMoves(p: Pool, sid: Sid, credited: nat, w: Worker, x: Share) returns (dropped: nat, added: nat)
    requires sid in p.sessions && p.sessions[sid].phase == Bound(w)
    ensures Moved(p, AcceptOf(p, sid, w, credited), w, x, dropped, added)
    ensures Within(x, p.now, RETENTION) ==> dropped == 0
  {
    var q := AcceptOf(p, sid, w, credited);
    AcceptedShares(p, sid, credited, w);
    HeldChange(p, q, sid, w, x);
    dropped, added := RecordedCount(SharesAt(p, sid, w), Share(p.now, credited), p.now, x);
    OneMore(Log(p, w), Share(p.now, credited), x);
  }

  lemma RecordedCount(shares: seq<Share>, s: Share, now: nat, x: Share) returns (dropped: nat, added: nat)
    ensures added == Once(x, s) && (Within(x, now, RETENTION) ==> dropped == 0)
    ensures multiset(Evict(shares + [s], now))[x] + dropped == multiset(shares)[x] + added
  {
    OneMore(shares, s, x);
    EvictCount(shares + [s], now, x);
    added := Once(x, s);
    dropped := multiset(shares + [s])[x] - multiset(Evict(shares + [s], now))[x];
  }

  lemma ParkMoves(p: Pool, sid: Sid, w: Worker, next: Option<Worker>, x: Share)
    requires sid in p.sessions && p.sessions[sid].phase == Leaving(w, next)
    ensures Moved(p, ParkOf(p, sid, w, next), w, x, multiset(ParkedShares(p, w))[x], 0)
  {
    ParkedAfter(p, sid, w, next);
    HeldChange(p, ParkOf(p, sid, w, next), sid, w, x);
  }

  lemma ParkedAfter(p: Pool, sid: Sid, w: Worker, next: Option<Worker>)
    requires sid in p.sessions && p.sessions[sid].phase == Leaving(w, next)
    ensures var q := ParkOf(p, sid, w, next);
            && OnlyAt(p, q, sid) && Log(q, w) == Log(p, w)
            && ParkedShares(q, w) == SharesAt(p, sid, w) && SharesAt(q, sid, w) == []
  {
  }

  lemma SameSessions(p: Pool, q: Pool, w: Worker, x: Share)
    requires q.sessions == p.sessions && Log(q, w) == Log(p, w)
    ensures Held(q, w)[x] + multiset(ParkedShares(p, w))[x] == Held(p, w)[x] + multiset(ParkedShares(q, w))[x]
    ensures Logged(q, w)[x] == Logged(p, w)[x]
  {
    assert OnlyAt(p, q, 0);
    HeldChange(p, q, 0, w, x);
    assert SharesAt(q, 0, w) == SharesAt(p, 0, w);
  }

  /** The parked record is still worth something. */
  ghost predicate Precious(p: Pool, w: Worker) {
    exists x: Share :: Within(x, p.now, RETENTION) && multiset(ParkedShares(p, w))[x] > 0
  }

  /** The steps that overwrite or drop the worker's parked record. */
  predicate Discards(p: Pool, step: Step, w: Worker) {
    || step == Remove(w)
    || (step.Park? && step.sid in p.sessions && p.sessions[step.sid].phase.Leaving? && p.sessions[step.sid].phase.worker == w)
  }

  /** What a step takes out of a worker's total, within retention: what was parked, if it
      discards that, and nothing otherwise. */
  lemma StepMoves(p: Pool, step: Step, w: Worker, x: Share) returns (dropped: nat, added: nat)
    requires Blank(p) && Enabled(p, step)
    ensures Moved(p, Next(p, step), w, x, dropped, added)
    ensures Within(x, p.now, RETENTION) ==> dropped == if Discards(p, step, w) then multiset(ParkedShares(p, w))[x] else 0
  {
    var q := Next(p, step);
    dropped, added := 0, 0;
    if step.Tick? || step.Scan? || step.Remove? {
      SameLog(p, step, w);
      SameSessions(p, q, w, x);
      dropped := if step == Remove(w) then multiset(ParkedShares(p, w))[x] else 0;
      ShelfAfter(p, step, w);
    } else if Moves(p, step, w) {
      dropped, added := OwnMoves(p, step, w, x);
    } else {
      OtherUntouched(p, step, w);
      UntouchedMoves(p, q, step.sid, w, x);
    }
  }

  lemma ShelfAfter(p: Pool, step: Step, w: Worker)
    requires Enabled(p, step) && (step.Tick? || step.Scan? || step.Remove?)
    ensures ParkedShares(Next(p, step), w) == if step == Remove(w) then [] else ParkedShares(p, w)
  {
  }

  lemma OwnMoves(p: Pool, step: Step, w: Worker, x: Share) returns (dropped: nat, added: nat)
    requires Blank(p) && Moves(p, step, w)
    ensures Moved(p, Next(p, step), w, x, dropped, added)
    ensures Within(x, p.now, RETENTION) ==> dropped == if step.Park? then multiset(ParkedShares(p, w))[x] else 0
  {
    dropped, added := 0, 0;
    match step {
      case Adopt(sid) => dropped := AdoptMoves(p, sid, w, x);
      case Accept(sid, credited) => dropped, added := AcceptMoves(p, sid, credited, w, x);
      case Park(sid) =>
        ParkMoves(p, sid, w, p.sessions[sid].phase.next, x);
        dropped := multiset(ParkedShares(p, w))[x];
      case MarkSubmitted(sid) =>
        SubmitUntouched(p, sid, w);
        UntouchedMoves(p, Next(p, step), sid, w, x);
    }
  }

  lemma SubmitUntouched(p: Pool, sid: Sid, w: Worker)
    requires Enabled(p, MarkSubmitted(sid)) && p.sessions[sid].phase.worker == w
    ensures var q := Next(p, MarkSubmitted(sid));
            OnlyAt(p, q, sid) && SameShelf(p, q, w) && CarriedBy(q, sid, w) == CarriedBy(p, sid, w)
  {
  }

  lemma OtherUntouched(p: Pool, step: Step, w: Worker)
    requires Enabled(p, step) && !step.Tick? && !step.Scan? && !step.Remove? && !Moves(p, step, w)
    ensures Untouched(p, Next(p, step), step.sid, w)
  {
    if step.Adopt? || step.Accept? || step.Park? || step.MarkSubmitted? {
      OthersUntouched(p, step, w);
    } else if step.Request? || step.Close? {
      GoingsUntouched(p, step, w);
    } else {
      ComingsUntouched(p, step, w);
    }
  }

  /** The step neither overwrites nor drops a parked record that still counts. */
  ghost predicate Spares(p: Pool, step: Step, w: Worker) { !(Discards(p, step, w) && Precious(p, w)) }

  /** A step loses work exactly when it discards a parked record that still holds a share
      within retention. */
  lemma StepConservesIff(p: Pool, step: Step, w: Worker)
    requires Blank(p) && Conserved(p, w) && Enabled(p, step)
    ensures Conserved(Next(p, step), w) <==> Spares(p, step, w)
  {
    var q := Next(p, step);
    ClockOf(p, step);
    if Discards(p, step, w) && Precious(p, w) {
      var x: Share :| Within(x, p.now, RETENTION) && multiset(ParkedShares(p, w))[x] > 0;
      var dropped, added := StepMoves(p, step, w, x);
      assert q.now == p.now && Held(q, w)[x] != Logged(q, w)[x];
    } else {
      forall x: Share | Within(x, q.now, RETENTION) ensures Held(q, w)[x] == Logged(q, w)[x] {
        assert Within(x, p.now, RETENTION);
        var dropped, added := StepMoves(p, step, w, x);
      }
    }
  }

  lemma ClockOf(p: Pool, step: Step)
    requires Enabled(p, step)
    ensures p.now <= Next(p, step).now && (!step.Tick? ==> Next(p, step).now == p.now)
  {
  }

  /** ... and no step ever makes a share count twice. */
  lemma StepNeverAdds(p: Pool, step: Step, w: Worker)
    requires Blank(p) && NeverTwice(p, w) && Enabled(p, step)
    ensures NeverTwice(Next(p, step), w)
  {
    forall x: Share ensures Held(Next(p, step), w)[x] <= Logged(Next(p, step), w)[x] {
      var dropped, added := StepMoves(p, step, w, x);
    }
  }

  // ----- Whole runs -----

  lemma {:induction false} RunBlank(ps: seq<Pool>, steps: seq<Step>, i: nat)
    requires Run(ps, steps) && i < |ps|
    ensures Blank(ps[i])
  {
    if i > 0 {
      RunBlank(ps, steps, i - 1);
      assert ps[i - 1 + 1] == Next(ps[i - 1], steps[i - 1]);
      StepBlank(ps[i - 1], steps[i - 1]);
    }
  }

  /** Nothing is held more often than it was accepted. */
  ghost predicate NeverTwice(p: Pool, w: Worker) { Held(p, w) <= Logged(p, w) }

  lemma StartHolds(p: Pool, w: Worker)
    requires p == START
    ensures NeverTwice(p, w) && Conserved(p, w)
  {
    assert p.sessions.Keys == {};
    assert Gathered(p, w) == [] && Log(p, w) == [];
  }

  /** Over every run, with any number of sessions, nothing is ever held twice. */
  lemma {:induction false} RunNeverAdds(ps: seq<Pool>, steps: seq<Step>, i: nat, w: Worker)
    requires Run(ps, steps) && i < |ps|
    ensures NeverTwice(ps[i], w)
  {
    if i == 0 {
      StartHolds(ps[0], w);
    } else {
      var (p, step) := (ps[i - 1], steps[i - 1]);
      RunNeverAdds(ps, steps, i - 1, w);
      RunBlank(ps, steps, i - 1);
      RunNext(ps, steps, i - 1);
      StepNeverAdds(p, step, w);
    }
  }

  lemma RunNext(ps: seq<Pool>, steps: seq<Step>, i: nat)
    requires Run(ps, steps) && i < |steps|
    ensures Enabled(ps[i], steps[i]) && ps[i + 1] == Next(ps[i], steps[i])
  {
  }

  ghost predicate ConservedUpTo(ps: seq<Pool>, i: nat, w: Worker)
    requires i < |ps|
  {
    forall j :: 0 <= j <= i ==> Conserved(ps[j], w)
  }

  ghost predicate SparedUpTo(ps: seq<Pool>, steps: seq<Step>, i: nat, w: Worker)
    requires i <= |ps| && i <= |steps|
  {
    forall j :: 0 <= j < i ==> Spares(ps[j], steps[j], w)
  }

  lemma ConservedOneMore(ps: seq<Pool>, i: nat, w: Worker)
    requires 0 < i < |ps|
    ensures ConservedUpTo(ps, i, w) <==> ConservedUpTo(ps, i - 1, w) && Conserved(ps[i], w)
  {
  }

  lemma SparedOneMore(ps: seq<Pool>, steps: seq<Step>, i: nat, w: Worker)
    requires 0 < i <= |ps| && i <= |steps|
    ensures SparedUpTo(ps, steps, i, w) <==> SparedUpTo(ps, steps, i - 1, w) && Spares(ps[i - 1], steps[i - 1], w)
  {
  }

  lemma LastConserved(ps: seq<Pool>, i: nat, w: Worker)
    requires i < |ps| && ConservedUpTo(ps, i, w)
    ensures Conserved(ps[i], w)
  {
  }

  lemma RunStepIff(ps: seq<Pool>, steps: seq<Step>, i: nat, w: Worker)
    requires Run(ps, steps) && i < |steps| && Conserved(ps[i], w)
    ensures Conserved(ps[i + 1], w) <==> Spares(ps[i], steps[i], w)
  {
    RunBlank(ps, steps, i);
    RunNext(ps, steps, i);
    StepConservesIff(ps[i], steps[i], w);
  }

  /** Over every run all work is there all along exactly when no step discards a parked
      record that still holds a share within retention. */
  lemma {:induction false} RunConservesIff(ps: seq<Pool>, steps: seq<Step>, i: nat, w: Worker)
    requires Run(ps, steps) && i < |ps|
    ensures ConservedUpTo(ps, i, w) <==> SparedUpTo(ps, steps, i, w)
  {
    if i == 0 {
      StartHolds(ps[0], w);
    } else {
      RunConservesIff(ps, steps, i - 1, w);
      ConservedOneMore(ps, i, w);
      SparedOneMore(ps, steps, i, w);
      if ConservedUpTo(ps, i - 1, w) {
        LastConserved(ps, i - 1, w);
        RunStepIff(ps, steps, i - 1, w);
      }
    }
  }

  // ----- Work sums -----

  lemma WithoutOne(b: seq<Share>, j: nat, now: nat, window: nat)
    requires j < |b|
    ensures Work(b, now, window)
         == (if Within(b[j], now, window) then b[j].difficulty else 0) + Work(b[..j] + b[j + 1..], now, window)
    ensures multiset(b) == multiset(b[..j] + b[j + 1..]) + multiset{b[j]}
  {
    assert b == b[..j] + ([b[j]] + b[j + 1..]);
    WorkConcat(b[..j], [b[j]] + b[j + 1..], now, window);
    WorkConcat([b[j]], b[j + 1..], now, window);
    WorkConcat(b[..j], b[j + 1..], now, window);
    assert [b[j]][1..] == [];
    assert Work([b[j]], now, window) == if Within(b[j], now, window) then b[j].difficulty else 0;
  }

  /** Work only depends on how often each share of the window occurs. */
  lemma {:induction false} WorkByCounts(a: seq<Share>, b: seq<Share>, now: nat, window: nat)
    requires forall x: Share :: Within(x, now, window) ==> multiset(a)[x] <= multiset(b)[x]
    ensures Work(a, now, window) <= Work(b, now, window)
    decreases |a|
  {
    if a != [] {
      var x := a[0];
      assert a == [x] + a[1..];
      if Within(x, now, window) {
        assert multiset(b)[x] > 0;
        var j :| 0 <= j < |b| && b[j] == x;
        WithoutOne(b, j, now, window);
        WorkByCounts(a[1..], b[..j] + b[j + 1..], now, window);
      } else {
        WorkByCounts(a[1..], b, now, window);
      }
    }
  }

  /** Work held for the worker, over its parked record and all its sessions. */
  ghost function TotalWork(p: Pool, w: Worker, window: nat): nat { Work(Gathered(p, w), p.now, window) }

  /** With any number of sessions, the windows of a worker together never show more than
      it was credited; and they show all of it, for every window up to 24 hours, as long
      as no step has discarded a parked record that still counted. */
  lemma RunWork(ps: seq<Pool>, steps: seq<Step>, i: nat, w: Worker, window: nat)
    requires Run(ps, steps) && i < |ps|
    ensures TotalWork(ps[i], w, window) <= Work(Log(ps[i], w), ps[i].now, window)
    ensures window <= RETENTION && SparedUpTo(ps, steps, i, w) ==>
      TotalWork(ps[i], w, window) == Work(Log(ps[i], w), ps[i].now, window)
  {
    RunNeverAdds(ps, steps, i, w);
    WorkByCounts(Gathered(ps[i], w), Log(ps[i], w), ps[i].now, window);
    if window <= RETENTION && SparedUpTo(ps, steps, i, w) {
      RunConservesIff(ps, steps, i, w);
      LastConserved(ps, i, w);
      WorkByCounts(Log(ps[i], w), Gathered(ps[i], w), ps[i].now, window);
    }
  }
}
