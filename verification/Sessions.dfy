/** Worker counts and share records across all sessions of the pool
    (src/network/session.rs, src/protocol/sv2/mod.rs against src/stats.rs).

    Each call a session makes into the collector is a step of its own, so a run
    interleaves the calls of any number of sessions with the background pruner, which
    first lists idle workers and then removes them one by one. Each of these operations
    is atomic. One clock serves both instants, in nanoseconds, and the Unix seconds of
    the collector. */
module Sessions {
  import opened ShareRecord
  import opened WorkerStats
  import opened Wrappers

  type Sid = nat

  /** Where a session stands between its collector calls. */
  datatype Phase =
    | Unbound
    | Joining(worker: Worker)                        // identity granted, not yet online
    | Arriving(worker: Worker)                       // online, record not yet taken back
    | Bound(worker: Worker)
    | Crediting(worker: Worker)                      // share recorded, submit not yet marked
    | Leaving(worker: Worker, next: Option<Worker>)  // offline, record not yet parked

  datatype Session = Session(phase: Phase, record: Record)

  /** `scanned` holds the workers the pruner found idle and has yet to remove. `log` is
      the full list of each worker's accepted shares; no code reads it. */
  datatype Pool = Pool(now: nat, sessions: map<Sid, Session>, stats: Stats, scanned: set<Worker>, log: map<Worker, seq<Share>>)

  const START := Pool(0, map[], Stats(map[], map[], map[]), {}, map[])

  /** How an authorize or open request fares before it touches any state. */
  datatype Admission = Granted | TooManyIdentities | ExtranonceTooWide

  datatype Step =
    | Tick(to: nat)
    | Connect(sid: Sid)
    | Request(sid: Sid, name: Worker, admission: Admission)
    | GoOnline(sid: Sid, vardiff: nat)
    | Adopt(sid: Sid)
    | Accept(sid: Sid, credited: nat)
    | MarkSubmitted(sid: Sid)
    | Retargeted(sid: Sid, vardiff: nat)
    | Park(sid: Sid)
    | Close(sid: Sid)
    | Scan(worker: Worker)
    | Remove(worker: Worker)

  function Secs(now: nat): nat { now / SECOND }

  function Log(p: Pool, w: Worker): seq<Share> { if w in p.log then p.log[w] else [] }

  predicate Enabled(p: Pool, step: Step) {
    match step
    case Tick(to) => p.now <= to
    case Connect(sid) => sid !in p.sessions && |p.sessions| < U64_MAX
    case Scan(_) => true
    case Remove(w) => w in p.scanned
    case Request(sid, _, _) => sid in p.sessions && (p.sessions[sid].phase.Unbound? || p.sessions[sid].phase.Bound?)
    case GoOnline(sid, _) => sid in p.sessions && p.sessions[sid].phase.Joining?
    case Adopt(sid) => sid in p.sessions && p.sessions[sid].phase.Arriving?
    case Accept(sid, _) => sid in p.sessions && p.sessions[sid].phase.Bound?
    case MarkSubmitted(sid) => sid in p.sessions && p.sessions[sid].phase.Crediting?
    case Retargeted(sid, _) => sid in p.sessions && p.sessions[sid].phase.Bound?
    case Park(sid) => sid in p.sessions && p.sessions[sid].phase.Leaving?
    case Close(sid) => sid in p.sessions && (p.sessions[sid].phase.Unbound? || p.sessions[sid].phase.Bound?)
  }

  function Goto(p: Pool, sid: Sid, phase: Phase): Pool
    requires sid in p.sessions
  {
    p.(sessions := p.sessions[sid := p.sessions[sid].(phase := phase)])
  }

  /** The session ends; one bound to a worker first goes offline and parks. */
  function CloseOf(p: Pool, sid: Sid): Pool
    requires sid in p.sessions
  {
    match p.sessions[sid].phase
    case Bound(w) => Depart(p, sid, w, None)
    case _ => p.(sessions := p.sessions - {sid})
  }

  function Depart(p: Pool, sid: Sid, w: Worker, next: Option<Worker>): Pool
    requires sid in p.sessions
  {
    Goto(p, sid, Leaving(w, next)).(stats := MarkOffline(p.stats, w))
  }

  /** SV1 authorize and SV2 open: a refused open and a repeated name change nothing,
      too many identities end the session, a new name replaces the old one. */
  function RequestOf(p: Pool, sid: Sid, name: Worker, admission: Admission): Pool
    requires sid in p.sessions
  {
    var phase := p.sessions[sid].phase;
    if admission == ExtranonceTooWide || phase == Bound(name) then p
    else if admission == TooManyIdentities then CloseOf(p, sid)
    else if phase.Bound? then Depart(p, sid, phase.worker, Some(name))
    else Goto(p, sid, Joining(name))
  }

  /** The record of a session that has asked for its worker's parked one. */
  function Adopted(own: Record, parked: Option<Record>, now: nat): Record {
    match parked
    case None => own
    case Some(earlier) => Restored(own, earlier, now)
  }

  function AdoptOf(p: Pool, sid: Sid, w: Worker): Pool
    requires sid in p.sessions
  {
    var record := Adopted(p.sessions[sid].record, Parked(p.stats, w), p.now);
    p.(stats := Take(p.stats, w), sessions := p.sessions[sid := Session(Bound(w), record)])
  }

  function AcceptOf(p: Pool, sid: Sid, w: Worker, credited: nat): Pool
    requires sid in p.sessions
  {
    p.(sessions := p.sessions[sid := Session(Crediting(w), Recorded(p.sessions[sid].record, p.now, credited))],
       log := p.log[w := Log(p, w) + [Share(p.now, credited)]])
  }

  function ParkOf(p: Pool, sid: Sid, w: Worker, next: Option<Worker>): Pool
    requires sid in p.sessions
  {
    p.(stats := Stash(p.stats, w, p.sessions[sid].record),
       sessions := match next
         case None => p.sessions - {sid}
         case Some(name) => p.sessions[sid := Session(Joining(name), Record([], p.now))])
  }

  function Next(p: Pool, step: Step): Pool
    requires Enabled(p, step)
  {
    match step
    case Tick(to) => p.(now := to)
    case Connect(sid) => p.(sessions := p.sessions[sid := Session(Unbound, Record([], p.now))])
    case Request(sid, name, admission) => RequestOf(p, sid, name, admission)
    case GoOnline(sid, vardiff) =>
      var w := p.sessions[sid].phase.worker;
      Goto(p, sid, Arriving(w)).(stats := MarkOnline(p.stats, w, vardiff, Secs(p.now)))
    case Adopt(sid) => AdoptOf(p, sid, p.sessions[sid].phase.worker)
    case Accept(sid, credited) => AcceptOf(p, sid, p.sessions[sid].phase.worker, credited)
    case MarkSubmitted(sid) =>
      var w := p.sessions[sid].phase.worker;
      Goto(p, sid, Bound(w)).(stats := MarkSubmit(p.stats, w, Secs(p.now)))
    case Retargeted(sid, vardiff) =>
      p.(stats := UpdateVardiff(p.stats, p.sessions[sid].phase.worker, vardiff, Secs(p.now)))
    case Park(sid) => ParkOf(p, sid, p.sessions[sid].phase.worker, p.sessions[sid].phase.next)
    case Close(sid) => CloseOf(p, sid)
    case Scan(w) => if Idle(p.stats, w, Secs(p.now)) then p.(scanned := p.scanned + {w}) else p
    case Remove(w) => p.(stats := Forget(p.stats, {w}), scanned := p.scanned - {w})
  }

  ghost predicate Run(ps: seq<Pool>, steps: seq<Step>) {
    && |ps| == |steps| + 1 && ps[0] == START
    && forall i :: 0 <= i < |steps| ==> Enabled(ps[i], steps[i]) && ps[i + 1] == Next(ps[i], steps[i])
  }

  // ----- Session counts -----

  /** The session counts as a live one of the worker. */
  predicate Counted(phase: Phase, w: Worker) {
    phase in {Arriving(w), Bound(w), Crediting(w)}
  }

  ghost function Live(p: Pool, w: Worker): set<Sid> {
    set sid | sid in p.sessions && Counted(p.sessions[sid].phase, w)
  }

  /** A worker's session count is the number of live sessions bound to it, it is
      online exactly when there is one, and then it is not evicted. */
  ghost predicate CountOk(p: Pool, w: Worker) {
    if w in p.stats.workers then
      && p.stats.workers[w].activeSessions == |Live(p, w)|
      && (p.stats.workers[w].online <==> Live(p, w) != {})
    else Live(p, w) == {}
  }

  /** The server admits far fewer sessions than the counter can hold. */
  predicate Sized(p: Pool) { |p.sessions| <= U64_MAX }

  lemma LiveBound(p: Pool, w: Worker, sid: Sid)
    requires sid in p.sessions && !Counted(p.sessions[sid].phase, w)
    ensures |Live(p, w)| < |p.sessions|
  {
    assert Live(p, w) <= p.sessions.Keys - {sid};
    SubsetSize(Live(p, w), p.sessions.Keys - {sid});
  }

  /** A step that leaves a worker's live sessions and counters alone. */
  lemma SameCount(p: Pool, q: Pool, w: Worker)
    requires CountOk(p, w) && Live(p, w) == Live(q, w)
    requires w in p.stats.workers <==> w in q.stats.workers
    requires w in p.stats.workers ==>
      && p.stats.workers[w].online == q.stats.workers[w].online
      && p.stats.workers[w].activeSessions == q.stats.workers[w].activeSessions
    ensures CountOk(q, w)
  {
  }

  lemma OnlineCounts(p: Pool, sid: Sid, vardiff: nat, w: Worker)
    requires Sized(p) && CountOk(p, w) && Enabled(p, GoOnline(sid, vardiff))
    ensures CountOk(Next(p, GoOnline(sid, vardiff)), w)
  {
    var q := Next(p, GoOnline(sid, vardiff));
    if w == p.sessions[sid].phase.worker {
      LiveBound(p, w, sid);
      assert Live(q, w) == Live(p, w) + {sid};
    } else {
      assert Live(q, w) == Live(p, w);
    }
  }

  lemma DepartCounts(p: Pool, sid: Sid, prev: Worker, next: Option<Worker>, w: Worker)
    requires CountOk(p, w) && sid in p.sessions && p.sessions[sid].phase == Bound(prev)
    ensures CountOk(Depart(p, sid, prev, next), w)
  {
    var q := Depart(p, sid, prev, next);
    if w == prev {
      assert sid in Live(p, w);
      assert Live(q, w) == Live(p, w) - {sid};
    } else {
      assert Live(q, w) == Live(p, w);
    }
  }

  /** `update_worker_vardiff` finds a bound session's worker, so it never takes the
      branch that would count the session a second time. */
  lemma BoundWorkerKnown(p: Pool, sid: Sid)
    requires sid in p.sessions && p.sessions[sid].phase.Bound? && CountOk(p, p.sessions[sid].phase.worker)
    ensures var w := p.sessions[sid].phase.worker;
            w in p.stats.workers && p.stats.workers[w].online && p.stats.workers[w].activeSessions > 0
  {
    var w := p.sessions[sid].phase.worker;
    assert sid in Live(p, w);
  }

  /** So a retarget shows up as the worker's difficulty and as nothing else. */
  lemma RetargetShows(p: Pool, sid: Sid, vardiff: nat)
    requires Enabled(p, Retargeted(sid, vardiff)) && CountOk(p, p.sessions[sid].phase.worker)
    ensures var (q, w) := (Next(p, Retargeted(sid, vardiff)), p.sessions[sid].phase.worker);
            && w in p.stats.workers && w in q.stats.workers && q.stats.workers[w].currentVardiff == vardiff
            && q == p.(stats := p.stats.(workers := q.stats.workers))
            && q.stats.workers == p.stats.workers[w := p.stats.workers[w].(currentVardiff := vardiff)]
  {
    BoundWorkerKnown(p, sid);
  }

  lemma QuietCounts(p: Pool, step: Step, w: Worker)
    requires Sized(p) && CountOk(p, w) && Enabled(p, step)
    requires step.Tick? || step.Connect? || step.Adopt? || step.Accept? || step.MarkSubmitted? || step.Park? || step.Scan?
    ensures CountOk(Next(p, step), w)
  {
    assert Live(Next(p, step), w) == Live(p, w);
    SameCount(p, Next(p, step), w);
  }

  lemma RetargetCounts(p: Pool, sid: Sid, vardiff: nat, w: Worker)
    requires Sized(p) && CountOk(p, w) && Enabled(p, Retargeted(sid, vardiff))
    ensures CountOk(Next(p, Retargeted(sid, vardiff)), w)
  {
    if p.sessions[sid].phase.worker == w {
      BoundWorkerKnown(p, sid);
    }
    SameCount(p, Next(p, Retargeted(sid, vardiff)), w);
  }

  lemma CloseCounts(p: Pool, sid: Sid, w: Worker)
    requires Sized(p) && CountOk(p, w) && Enabled(p, Close(sid))
    ensures CountOk(CloseOf(p, sid), w)
  {
    if p.sessions[sid].phase.Bound? {
      DepartCounts(p, sid, p.sessions[sid].phase.worker, None, w);
    } else {
      assert Live(CloseOf(p, sid), w) == Live(p, w);
    }
  }

  lemma RequestCounts(p: Pool, sid: Sid, name: Worker, admission: Admission, w: Worker)
    requires Sized(p) && CountOk(p, w) && Enabled(p, Request(sid, name, admission))
    ensures CountOk(RequestOf(p, sid, name, admission), w)
    ensures admission == ExtranonceTooWide || p.sessions[sid].phase == Bound(name) ==> RequestOf(p, sid, name, admission) == p
  {
    var phase := p.sessions[sid].phase;
    if admission == ExtranonceTooWide || phase == Bound(name) {
    } else if admission == TooManyIdentities {
      CloseCounts(p, sid, w);
    } else if phase.Bound? {
      DepartCounts(p, sid, phase.worker, Some(name), w);
    } else {
      assert Live(Goto(p, sid, Joining(name)), w) == Live(p, w);
    }
  }

  /** Forgetting workers keeps the counts right exactly when none of them has a live
      session at that moment. */
  lemma ForgetCountsIff(p: Pool, gone: set<Worker>)
    requires forall w :: CountOk(p, w)
    ensures (forall w :: CountOk(p.(stats := Forget(p.stats, gone)), w)) <==> (forall w :: w in gone ==> Live(p, w) == {})
  {
    var q := p.(stats := Forget(p.stats, gone));
    forall w ensures CountOk(q, w) <==> (w in gone ==> Live(p, w) == {}) {
      ForgetCount(p, q, gone, w);
    }
  }

  lemma ForgetCount(p: Pool, q: Pool, gone: set<Worker>, w: Worker)
    requires CountOk(p, w) && q.sessions == p.sessions && q.stats == Forget(p.stats, gone)
    ensures CountOk(q, w) <==> (w in gone ==> Live(p, w) == {})
  {
    assert Live(q, w) == Live(p, w);
  }

  /** The only step that can spoil a worker's count is its own removal while a session
      of its is live. */
  ghost predicate RemovedIdle(p: Pool, step: Step, w: Worker) {
    step == Remove(w) ==> Live(p, w) == {}
  }

  lemma StepCounts(p: Pool, step: Step, w: Worker)
    requires Sized(p) && CountOk(p, w) && Enabled(p, step) && RemovedIdle(p, step, w)
    ensures CountOk(Next(p, step), w)
  {
    match step {
      case GoOnline(sid, vardiff) => OnlineCounts(p, sid, vardiff, w);
      case Retargeted(sid, vardiff) => RetargetCounts(p, sid, vardiff, w);
      case Request(sid, name, admission) => RequestCounts(p, sid, name, admission, w);
      case Close(sid) => CloseCounts(p, sid, w);
      case Remove(v) => ForgetCount(p, Next(p, step), {v}, w);
      case _ => QuietCounts(p, step, w);
    }
  }

  lemma SessionsGrow(p: Pool, step: Step)
    requires Enabled(p, step) && Sized(p)
    ensures Sized(Next(p, step))
  {
    var q := Next(p, step);
    if step.Connect? {
      assert q.sessions.Keys == p.sessions.Keys + {step.sid};
    } else {
      assert q.sessions.Keys <= p.sessions.Keys;
      SubsetSize(q.sessions.Keys, p.sessions.Keys);
    }
    assert |q.sessions.Keys| == |q.sessions| && |p.sessions.Keys| == |p.sessions|;
  }

  /** In every reachable state of every interleaving a worker's count is right, unless
      it was removed with a live session. */
  lemma {:induction false} RunCounts(ps: seq<Pool>, steps: seq<Step>, i: nat, w: Worker)
    requires Run(ps, steps) && i < |ps| && forall j :: 0 <= j < i ==> RemovedIdle(ps[j], steps[j], w)
    ensures Sized(ps[i]) && CountOk(ps[i], w)
  {
    if i == 0 {
      assert Live(ps[0], w) == {};
    } else {
      RunCounts(ps, steps, i - 1, w);
      assert ps[i - 1 + 1] == Next(ps[i - 1], steps[i - 1]) && RemovedIdle(ps[i - 1], steps[i - 1], w);
      SessionsGrow(ps[i - 1], steps[i - 1]);
      StepCounts(ps[i - 1], steps[i - 1], w);
    }
  }

  // ----- A worker that stays away while it is scanned -----

  /** A scanned worker does not come online before it is removed. */
  predicate StaysAway(p: Pool, step: Step, w: Worker) {
    step.GoOnline? && step.sid in p.sessions && p.sessions[step.sid].phase == Joining(w) ==> w !in p.scanned
  }

  ghost predicate ScannedIdle(p: Pool, w: Worker) {
    w in p.scanned ==> forall sid :: sid in p.sessions ==> !Counted(p.sessions[sid].phase, w)
  }

  lemma ScannedNotLive(p: Pool, w: Worker)
    requires ScannedIdle(p, w) && w in p.scanned
    ensures Live(p, w) == {}
  {
  }

  lemma IdleNotLive(p: Pool, w: Worker, secs: nat)
    requires CountOk(p, w) && Idle(p.stats, w, secs)
    ensures forall sid :: sid in p.sessions ==> !Counted(p.sessions[sid].phase, w)
  {
    forall sid | sid in p.sessions ensures !Counted(p.sessions[sid].phase, w) {
      assert sid !in Live(p, w);
    }
  }

  lemma StepScanned(p: Pool, step: Step, w: Worker)
    requires CountOk(p, w) && ScannedIdle(p, w) && Enabled(p, step) && StaysAway(p, step, w)
    ensures ScannedIdle(Next(p, step), w)
  {
    if step == Scan(w) && Idle(p.stats, w, Secs(p.now)) {
      IdleNotLive(p, w, Secs(p.now));
    }
  }

  lemma {:induction false} RunScanned(ps: seq<Pool>, steps: seq<Step>, i: nat, w: Worker)
    requires Run(ps, steps) && i < |ps| && forall j :: 0 <= j < i ==> StaysAway(ps[j], steps[j], w)
    ensures ScannedIdle(ps[i], w) && Sized(ps[i]) && CountOk(ps[i], w)
  {
    if i == 0 {
      assert Live(ps[0], w) == {};
    } else {
      var (p, step) := (ps[i - 1], steps[i - 1]);
      RunScanned(ps, steps, i - 1, w);
      assert ps[i - 1 + 1] == Next(p, step) && StaysAway(p, step, w);
      StepScanned(p, step, w);
      SessionsGrow(p, step);
      if step == Remove(w) {
        ScannedNotLive(p, w);
      }
      StepCounts(p, step, w);
    }
  }

  /** So for a worker that never comes online between its scan and its removal the count
      is right in every interleaving, and it is never evicted with a session bound. */
  lemma AwayRunCounts(ps: seq<Pool>, steps: seq<Step>, i: nat, w: Worker)
    requires Run(ps, steps) && i < |ps| && forall j :: 0 <= j < i ==> StaysAway(ps[j], steps[j], w)
    ensures CountOk(ps[i], w)
    ensures i < |steps| ==> RemovedIdle(ps[i], steps[i], w)
  {
    RunScanned(ps, steps, i, w);
    if i < |steps| && steps[i] == Remove(w) {
      ScannedNotLive(ps[i], w);
    }
  }
}
