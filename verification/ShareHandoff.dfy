/** The share record a worker carries from session to session
    (src/mining/vardiff.rs, src/stats.rs), against the full log of its accepted shares. */
module ShareHandoff {
  import opened ShareRecord
  import opened WorkerStats
  import opened Sessions
  import opened Wrappers

  /** The session has the worker's record in its hands, or is about to take it. */
  predicate Holder(phase: Phase, w: Worker) {
    Counted(phase, w) || (phase.Leaving? && phase.worker == w)
  }

  /** The session's own record is the worker's. */
  predicate Carries(phase: Phase, w: Worker) {
    Holder(phase, w) && !phase.Arriving?
  }

  /** At most one session at a time for the worker. */
  ghost predicate Exclusive(p: Pool, w: Worker) {
    forall a, b :: a in p.sessions && b in p.sessions ==>
      Holder(p.sessions[a].phase, w) && Holder(p.sessions[b].phase, w) ==> a == b
  }

  function ParkedShares(p: Pool, w: Worker): seq<Share> {
    if w in p.stats.parked then p.stats.parked[w].shares else []
  }

  ghost predicate Carried(p: Pool, w: Worker) {
    exists sid :: sid in p.sessions && Carries(p.sessions[sid].phase, w)
  }

  /** Wherever the record is, it has lost nothing a 24-hour window could see, and it
      is in one place only. */
  ghost predicate RecordOk(p: Pool, w: Worker) {
    && (forall sid :: sid in p.sessions && Carries(p.sessions[sid].phase, w) ==>
          w !in p.stats.parked && Holds(p.sessions[sid].record.shares, Log(p, w), p.now))
    && (Carried(p, w) || Holds(ParkedShares(p, w), Log(p, w), p.now))
  }

  /** A session that carries nobody's record has an empty one. */
  ghost predicate Blank(p: Pool) {
    forall sid :: sid in p.sessions && (p.sessions[sid].phase.Unbound? || p.sessions[sid].phase.Joining? || p.sessions[sid].phase.Arriving?) ==>
      p.sessions[sid].record.shares == []
  }

  ghost predicate LogOk(p: Pool, w: Worker) {
    && Sorted(Log(p, w))
    && forall i :: 0 <= i < |Log(p, w)| ==> Log(p, w)[i].at <= p.now
  }

  /** Every share the retention still covers is no later than the last submit. */
  ghost predicate Covered(p: Pool, w: Worker) {
    forall i :: 0 <= i < |Log(p, w)| && Within(Log(p, w)[i], p.now, RETENTION) ==>
      w in p.stats.lastSubmit && Log(p, w)[i].at < (p.stats.lastSubmit[w] + 1) * SECOND
  }

  ghost predicate CreditPending(p: Pool, w: Worker) {
    exists sid :: sid in p.sessions && p.sessions[sid].phase == Crediting(w)
  }

  ghost predicate HistoryOk(p: Pool, w: Worker) {
    RecordOk(p, w) && LogOk(p, w) && (Covered(p, w) || CreditPending(p, w))
  }

  lemma SecondsApart(at: nat, last: nat, now: nat)
    ensures at < (last + 1) * SECOND && last < Cutoff(Secs(now)) ==> at + RETENTION < now
  {
  }

  /** Pruning only forgets workers whose whole log is past retention. */
  lemma PrunedIsPast(p: Pool, w: Worker)
    requires CountOk(p, w) && HistoryOk(p, w) && Idle(p.stats, w, Secs(p.now))
    ensures forall i :: 0 <= i < |Log(p, w)| ==> !Within(Log(p, w)[i], p.now, RETENTION)
    ensures Holds([], Log(p, w), p.now)
  {
    IdleNotLive(p, w, Secs(p.now));
    var log := Log(p, w);
    forall i | 0 <= i < |log| ensures !Within(log[i], p.now, RETENTION) {
      if w in p.stats.lastSubmit {
        SecondsApart(log[i].at, p.stats.lastSubmit[w], p.now);
      }
    }
    assert log[|log|..] == [];
    assert Suffix([], log, p.now, |log|);
  }

  lemma PrunedKeeps(p: Pool, q: Pool, w: Worker)
    requires HistoryOk(p, w) && q.now == p.now && q.sessions == p.sessions && q.log == p.log
    requires w !in q.stats.parked && Holds([], Log(p, w), p.now)
    requires forall i :: 0 <= i < |Log(p, w)| ==> !Within(Log(p, w)[i], p.now, RETENTION)
    ensures HistoryOk(q, w)
  {
    assert Log(q, w) == Log(p, w);
    assert ParkedShares(q, w) == [];
    assert Covered(q, w);
  }

  /** A step that leaves sessions, log, parked record and last submit of `w` alone. */
  lemma SparedKeeps(p: Pool, q: Pool, w: Worker)
    requires HistoryOk(p, w) && q.now == p.now && q.sessions == p.sessions && q.log == p.log
    requires (w in q.stats.parked <==> w in p.stats.parked) && (w in p.stats.parked ==> q.stats.parked[w] == p.stats.parked[w])
    requires w in p.stats.lastSubmit ==> w in q.stats.lastSubmit && q.stats.lastSubmit[w] == p.stats.lastSubmit[w]
    ensures HistoryOk(q, w)
  {
    assert Log(q, w) == Log(p, w);
    assert CreditPending(p, w) ==> CreditPending(q, w);
    FrameKeeps(p, q, w);
  }

  lemma TickKeeps(p: Pool, to: nat, w: Worker)
    requires HistoryOk(p, w) && p.now <= to
    ensures HistoryOk(Next(p, Tick(to)), w)
  {
    var q := Next(p, Tick(to));
    assert Log(q, w) == Log(p, w);
    forall sid | sid in q.sessions && Carries(q.sessions[sid].phase, w)
      ensures Holds(q.sessions[sid].record.shares, Log(q, w), q.now)
    {
      HoldsLater(p.sessions[sid].record.shares, Log(p, w), p.now, to);
    }
    if !Carried(q, w) {
      assert !Carried(p, w);
      HoldsLater(ParkedShares(p, w), Log(p, w), p.now, to);
    }
    assert CreditPending(p, w) ==> CreditPending(q, w);
  }

  /** A step that touches neither the worker's record nor its log. */
  lemma FrameKeeps(p: Pool, q: Pool, w: Worker)
    requires HistoryOk(p, w) && q.now == p.now && Log(q, w) == Log(p, w)
    requires w in q.stats.parked <==> w in p.stats.parked
    requires w in p.stats.parked ==> q.stats.parked[w] == p.stats.parked[w]
    requires forall sid :: sid in q.sessions && Carries(q.sessions[sid].phase, w) ==>
      sid in p.sessions && Carries(p.sessions[sid].phase, w) && p.sessions[sid].record == q.sessions[sid].record
    requires forall sid :: sid in p.sessions && Carries(p.sessions[sid].phase, w) ==>
      sid in q.sessions && Carries(q.sessions[sid].phase, w)
    requires Covered(q, w) || CreditPending(q, w)
    ensures HistoryOk(q, w)
  {
    if !Carried(q, w) {
      assert !Carried(p, w);
    }
  }

  /** Everything in the log is out of reach of a 24-hour window. */
  ghost predicate AllPast(p: Pool, w: Worker) {
    forall i :: 0 <= i < |Log(p, w)| ==> !Within(Log(p, w)[i], p.now, RETENTION)
  }

  ghost predicate ScannedPast(p: Pool, w: Worker) { w in p.scanned ==> AllPast(p, w) }

  lemma SameLog(p: Pool, step: Step, w: Worker)
    requires Enabled(p, step) && !(step.Accept? && p.sessions[step.sid].phase.worker == w)
    ensures Log(Next(p, step), w) == Log(p, w) && p.now <= Next(p, step).now
  {
  }

  lemma PastLater(p: Pool, q: Pool, w: Worker)
    requires AllPast(p, w) && Log(q, w) == Log(p, w) && p.now <= q.now
    ensures AllPast(q, w)
  {
  }

  lemma StepPast(p: Pool, step: Step, w: Worker)
    requires CountOk(p, w) && HistoryOk(p, w) && ScannedIdle(p, w) && ScannedPast(p, w) && Enabled(p, step)
    ensures ScannedPast(Next(p, step), w)
  {
    if step == Scan(w) && Idle(p.stats, w, Secs(p.now)) {
      PrunedIsPast(p, w);
    }
    if w in Next(p, step).scanned {
      SameLog(p, step, w);
      PastLater(p, Next(p, step), w);
    }
  }

  lemma RemoveKeeps(p: Pool, v: Worker, w: Worker)
    requires HistoryOk(p, w) && ScannedPast(p, w) && Enabled(p, Remove(v))
    ensures HistoryOk(Next(p, Remove(v)), w)
  {
    if v == w {
      var log := Log(p, w);
      assert log[|log|..] == [];
      assert Suffix([], log, p.now, |log|);
      PrunedKeeps(p, Next(p, Remove(v)), w);
    } else {
      SparedKeeps(p, Next(p, Remove(v)), w);
    }
  }

  lemma AdoptedHolds(own: Record, parked: Option<Record>, log: seq<Share>, now: nat)
    requires own.shares == [] && Sorted(log) && Holds(if parked.Some? then parked.value.shares else [], log, now)
    ensures Holds(Adopted(own, parked, now).shares, log, now)
  {
    if parked.Some? {
      RestoreHolds(parked.value.shares, log, now);
    }
  }

  /** Session `sid` is the one holder of `w`, and carries the whole record now. */
  lemma SoleCarrier(p: Pool, q: Pool, sid: Sid, w: Worker)
    requires Exclusive(p, w) && sid in p.sessions && Holder(p.sessions[sid].phase, w)
    requires sid in q.sessions && Carries(q.sessions[sid].phase, w) && w !in q.stats.parked
    requires forall other :: other in q.sessions && other != sid ==> other in p.sessions && q.sessions[other] == p.sessions[other]
    requires Holds(q.sessions[sid].record.shares, Log(q, w), q.now)
    ensures RecordOk(q, w)
  {
  }

  lemma AdoptKeeps(p: Pool, sid: Sid, w: Worker)
    requires HistoryOk(p, w) && Blank(p) && Exclusive(p, w) && sid in p.sessions && p.sessions[sid].phase == Arriving(w)
    ensures HistoryOk(AdoptOf(p, sid, w), w)
  {
    var q := AdoptOf(p, sid, w);
    NotCarried(p, sid, w);
    AdoptedHolds(p.sessions[sid].record, Parked(p.stats, w), Log(p, w), p.now);
    AdoptShape(p, sid, w);
    SoleCarrier(p, q, sid, w);
  }

  lemma AdoptShape(p: Pool, sid: Sid, w: Worker)
    requires sid in p.sessions && LogOk(p, w) && Covered(p, w)
    ensures var q := AdoptOf(p, sid, w);
            && Log(q, w) == Log(p, w) && LogOk(q, w) && Covered(q, w)
            && forall other :: other in q.sessions && other != sid ==>
                 other in p.sessions && q.sessions[other] == p.sessions[other]
  {
  }

  lemma NotCarried(p: Pool, sid: Sid, w: Worker)
    requires HistoryOk(p, w) && Exclusive(p, w) && sid in p.sessions && p.sessions[sid].phase == Arriving(w)
    ensures Holds(ParkedShares(p, w), Log(p, w), p.now) && Covered(p, w)
  {
  }

  lemma AcceptLogs(p: Pool, q: Pool, credited: nat, w: Worker)
    requires LogOk(p, w) && q.now == p.now && Log(q, w) == Log(p, w) + [Share(p.now, credited)]
    ensures LogOk(q, w)
  {
  }

  lemma RecordedHolds(r: Record, log: seq<Share>, now: nat, credited: nat)
    requires Holds(r.shares, log, now)
    ensures Holds(Recorded(r, now, credited).shares, log + [Share(now, credited)], now)
  {
    RecordHolds(r.shares, log, now, Share(now, credited));
  }

  lemma AcceptShape(p: Pool, sid: Sid, credited: nat, w: Worker)
    requires sid in p.sessions
    ensures var q := AcceptOf(p, sid, w, credited);
            && Log(q, w) == Log(p, w) + [Share(p.now, credited)]
            && forall other :: other in q.sessions && other != sid ==>
                 other in p.sessions && q.sessions[other] == p.sessions[other]
  {
  }

  lemma AcceptKeeps(p: Pool, sid: Sid, credited: nat, w: Worker)
    requires HistoryOk(p, w) && Exclusive(p, w) && sid in p.sessions && p.sessions[sid].phase == Bound(w)
    ensures HistoryOk(AcceptOf(p, sid, w, credited), w)
  {
    var q := AcceptOf(p, sid, w, credited);
    AcceptShape(p, sid, credited, w);
    assert LogOk(q, w) by { AcceptLogs(p, q, credited, w); }
    assert Holds(q.sessions[sid].record.shares, Log(q, w), q.now) by {
      RecordedHolds(p.sessions[sid].record, Log(p, w), p.now, credited);
    }
    SoleCarrier(p, q, sid, w);
    assert q.sessions[sid].phase == Crediting(w);
  }

  lemma ParkKeeps(p: Pool, sid: Sid, w: Worker)
    requires HistoryOk(p, w) && Enabled(p, Park(sid)) && Exclusive(p, w)
    requires p.sessions[sid].phase.worker == w
    ensures HistoryOk(Next(p, Park(sid)), w)
  {
    var q := Next(p, Park(sid));
    assert Log(q, w) == Log(p, w);
    assert Holds(ParkedShares(q, w), Log(q, w), q.now);
    forall other | other in q.sessions ensures !Carries(q.sessions[other].phase, w) {
      assert other != sid ==> p.sessions[other] == q.sessions[other];
    }
    assert !CreditPending(p, w);
  }

  lemma SubmitKeeps(p: Pool, sid: Sid, w: Worker)
    requires HistoryOk(p, w) && Enabled(p, MarkSubmitted(sid))
    requires p.sessions[sid].phase.worker == w
    ensures HistoryOk(Next(p, MarkSubmitted(sid)), w)
  {
    var q := Next(p, MarkSubmitted(sid));
    assert Covered(q, w);
    FrameKeeps(p, q, w);
  }

  /** No session but `sid` has changed. */
  ghost predicate OnlyAt(p: Pool, q: Pool, sid: Sid) {
    && (forall other :: other != sid ==> (other in q.sessions <==> other in p.sessions))
    && (forall other :: other != sid && other in p.sessions ==> q.sessions[other] == p.sessions[other])
  }

  /** The record session `sid` carries for `w`, if any. */
  function CarriedBy(p: Pool, sid: Sid, w: Worker): Option<Record> {
    if sid in p.sessions && Carries(p.sessions[sid].phase, w) then Some(p.sessions[sid].record) else None
  }

  /** Parked record, log and clock are the same for `w`. */
  predicate SameShelf(p: Pool, q: Pool, w: Worker) {
    q.now == p.now && Log(q, w) == Log(p, w) && Parked(q.stats, w) == Parked(p.stats, w)
  }

  /** Only session `sid` has changed, in nothing that concerns `w`. */
  ghost predicate Untouched(p: Pool, q: Pool, sid: Sid, w: Worker) {
    && SameShelf(p, q, w) && OnlyAt(p, q, sid) && CarriedBy(q, sid, w) == CarriedBy(p, sid, w)
    && (w in p.stats.lastSubmit ==> w in q.stats.lastSubmit && q.stats.lastSubmit[w] == p.stats.lastSubmit[w])
    && (sid in p.sessions && p.sessions[sid].phase == Crediting(w) ==> sid in q.sessions && q.sessions[sid].phase == Crediting(w))
  }

  lemma UntouchedRecord(p: Pool, q: Pool, sid: Sid, w: Worker)
    requires RecordOk(p, w) && SameShelf(p, q, w) && OnlyAt(p, q, sid) && CarriedBy(q, sid, w) == CarriedBy(p, sid, w)
    ensures RecordOk(q, w)
  {
    forall other ensures CarriedBy(q, other, w) == CarriedBy(p, other, w) {
    }
    CarriersDecide(p, q, w);
  }

  lemma CarriersDecide(p: Pool, q: Pool, w: Worker)
    requires RecordOk(p, w) && SameShelf(p, q, w)
    requires forall sid :: CarriedBy(q, sid, w) == CarriedBy(p, sid, w)
    ensures RecordOk(q, w)
  {
    forall sid | sid in q.sessions && Carries(q.sessions[sid].phase, w)
      ensures w !in q.stats.parked && Holds(q.sessions[sid].record.shares, Log(q, w), q.now)
    {
      assert CarriedBy(q, sid, w).Some? && CarriedBy(p, sid, w).Some?;
    }
    if Carried(p, w) {
      var sid :| sid in p.sessions && Carries(p.sessions[sid].phase, w);
      assert CarriedBy(q, sid, w).Some?;
    } else {
      assert ParkedShares(q, w) == ParkedShares(p, w);
    }
  }

  lemma UntouchedCovered(p: Pool, q: Pool, sid: Sid, w: Worker)
    requires Untouched(p, q, sid, w) && (Covered(p, w) || CreditPending(p, w))
    ensures Covered(q, w) || CreditPending(q, w)
  {
    if CreditPending(p, w) {
      var other :| other in p.sessions && p.sessions[other].phase == Crediting(w);
      assert other in q.sessions && q.sessions[other].phase == Crediting(w);
    }
  }

  lemma SameLogOk(p: Pool, q: Pool, w: Worker)
    requires LogOk(p, w) && q.now == p.now && Log(q, w) == Log(p, w)
    ensures LogOk(q, w)
  {
  }

  lemma UntouchedKeeps(p: Pool, q: Pool, sid: Sid, w: Worker)
    requires HistoryOk(p, w) && Untouched(p, q, sid, w)
    ensures HistoryOk(q, w)
  {
    UntouchedRecord(p, q, sid, w);
    UntouchedCovered(p, q, sid, w);
    SameLogOk(p, q, w);
  }

  /** The remaining steps touch no record and no log of `w`. */
  lemma ComingsUntouched(p: Pool, step: Step, w: Worker)
    requires Enabled(p, step) && (step.Connect? || step.GoOnline? || step.Retargeted?)
    ensures Untouched(p, Next(p, step), step.sid, w)
  {
  }

  lemma DepartUntouched(p: Pool, sid: Sid, prev: Worker, next: Option<Worker>, w: Worker)
    requires sid in p.sessions && p.sessions[sid].phase == Bound(prev)
    ensures Untouched(p, Depart(p, sid, prev, next), sid, w)
  {
  }

  lemma GoingsUntouched(p: Pool, step: Step, w: Worker)
    requires Enabled(p, step) && (step.Request? || step.Close?)
    ensures Untouched(p, Next(p, step), step.sid, w)
  {
    var phase := p.sessions[step.sid].phase;
    if phase.Bound? {
      DepartUntouched(p, step.sid, phase.worker, if step.Request? && step.admission == Granted then Some(step.name) else None, w);
    }
  }

  lemma OthersUntouched(p: Pool, step: Step, w: Worker)
    requires Enabled(p, step) && (step.Adopt? || step.Accept? || step.Park? || step.MarkSubmitted?)
    requires p.sessions[step.sid].phase.worker != w
    ensures Untouched(p, Next(p, step), step.sid, w)
  {
  }

  lemma OtherKeeps(p: Pool, step: Step, w: Worker)
    requires HistoryOk(p, w) && Enabled(p, step)
    requires !step.Tick? && !step.Scan? && !step.Remove? && !Moves(p, step, w)
    ensures HistoryOk(Next(p, step), w)
  {
    if step.Adopt? || step.Accept? || step.Park? || step.MarkSubmitted? {
      OthersUntouched(p, step, w);
    } else if step.Request? || step.Close? {
      GoingsUntouched(p, step, w);
    } else {
      ComingsUntouched(p, step, w);
    }
    UntouchedKeeps(p, Next(p, step), step.sid, w);
  }

  /** The steps of a session of `w` that move its record or its log. */
  predicate Moves(p: Pool, step: Step, w: Worker) {
    && (step.Adopt? || step.Accept? || step.Park? || step.MarkSubmitted?)
    && Enabled(p, step) && p.sessions[step.sid].phase.worker == w
  }

  lemma OwnKeeps(p: Pool, step: Step, w: Worker)
    requires HistoryOk(p, w) && Blank(p) && Exclusive(p, w) && Moves(p, step, w)
    ensures HistoryOk(Next(p, step), w)
  {
    match step {
      case Adopt(sid) => AdoptKeeps(p, sid, w);
      case Accept(sid, credited) => AcceptKeeps(p, sid, credited, w);
      case Park(sid) => ParkKeeps(p, sid, w);
      case MarkSubmitted(sid) => SubmitKeeps(p, sid, w);
    }
  }

  lemma StepKeeps(p: Pool, step: Step, w: Worker)
    requires HistoryOk(p, w) && ScannedPast(p, w) && Blank(p) && Enabled(p, step) && Exclusive(p, w)
    ensures HistoryOk(Next(p, step), w)
  {
    if step.Tick? {
      TickKeeps(p, step.to, w);
    } else if step.Scan? {
      SparedKeeps(p, Next(p, step), w);
    } else if step.Remove? {
      RemoveKeeps(p, step.worker, w);
    } else if Moves(p, step, w) {
      OwnKeeps(p, step, w);
    } else {
      OtherKeeps(p, step, w);
    }
  }

  lemma StepBlank(p: Pool, step: Step)
    requires Blank(p) && Enabled(p, step)
    ensures Blank(Next(p, step))
  {
  }

  /** The worker has one session at a time and stays away while it is scanned. */
  ghost predicate Orderly(ps: seq<Pool>, steps: seq<Step>, i: nat, w: Worker)
    requires i <= |ps| && i <= |steps|
  {
    forall j :: 0 <= j < i ==> Exclusive(ps[j], w) && StaysAway(ps[j], steps[j], w)
  }

  lemma {:induction false} RunHistory(ps: seq<Pool>, steps: seq<Step>, i: nat, w: Worker)
    requires Run(ps, steps) && i < |ps| && Orderly(ps, steps, i, w)
    ensures HistoryOk(ps[i], w) && ScannedPast(ps[i], w) && Blank(ps[i])
  {
    if i == 0 {
      assert Suffix([], [], 0, 0);
    } else {
      var (p, step) := (ps[i - 1], steps[i - 1]);
      RunHistory(ps, steps, i - 1, w);
      RunScanned(ps, steps, i - 1, w);
      assert ps[i - 1 + 1] == Next(p, step) && Exclusive(p, w);
      StepKeeps(p, step, w);
      StepPast(p, step, w);
      StepBlank(p, step);
    }
  }

  /** Over any run in which a worker has at most one session at a time and does not come
      online between its scan and its removal, whatever disconnects, identity switches,
      reconnects and pruning happen, the work its session sees in any window up to 24
      hours is the sum over all its accepted shares in that window. */
  lemma WindowsSeeTheFullLog(ps: seq<Pool>, steps: seq<Step>, i: nat, sid: Sid, window: nat)
    requires Run(ps, steps) && i < |ps| && window <= RETENTION
    requires sid in ps[i].sessions && (ps[i].sessions[sid].phase.Bound? || ps[i].sessions[sid].phase.Crediting?)
    requires Orderly(ps, steps, i, ps[i].sessions[sid].phase.worker)
    ensures Work(ps[i].sessions[sid].record.shares, ps[i].now, window)
         == Work(Log(ps[i], ps[i].sessions[sid].phase.worker), ps[i].now, window)
  {
    var w := ps[i].sessions[sid].phase.worker;
    RunHistory(ps, steps, i, w);
    WorkOfSuffix(ps[i].sessions[sid].record.shares, Log(ps[i], w), ps[i].now, window);
  }

  /** Between sessions the parked record holds it; with nothing parked there is
      nothing left to hold. */
  lemma ParkedSeesTheFullLog(ps: seq<Pool>, steps: seq<Step>, i: nat, w: Worker, window: nat)
    requires Run(ps, steps) && i < |ps| && window <= RETENTION && !Carried(ps[i], w)
    requires Orderly(ps, steps, i, w)
    ensures Work(ParkedShares(ps[i], w), ps[i].now, window) == Work(Log(ps[i], w), ps[i].now, window)
  {
    RunHistory(ps, steps, i, w);
    WorkOfSuffix(ParkedShares(ps[i], w), Log(ps[i], w), ps[i].now, window);
  }
}
