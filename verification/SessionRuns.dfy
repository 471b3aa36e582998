/** Runs of the pool, from its start, in which what `Sessions` and `ShareHandoff` prove
    fails because a hypothesis does. */
module SessionRuns {
  import opened ShareRecord
  import opened WorkerStats
  import opened Sessions
  import opened ShareHandoff
  import opened Wrappers

  ghost predicate Reaches(p: Pool) {
    exists ps: seq<Pool>, steps: seq<Step> :: Run(ps, steps) && ps[|ps| - 1] == p
  }

  lemma StartReaches()
    ensures Reaches(START)
  {
    assert Run([START], []);
  }

  lemma Extended(ps: seq<Pool>, steps: seq<Step>, step: Step)
    requires Run(ps, steps) && Enabled(ps[|ps| - 1], step)
    ensures Run(ps + [Next(ps[|ps| - 1], step)], steps + [step])
  {
    var (qs, more) := (ps + [Next(ps[|ps| - 1], step)], steps + [step]);
    forall i | 0 <= i < |more| ensures Enabled(qs[i], more[i]) && qs[i + 1] == Next(qs[i], more[i]) {
      assert i < |steps| ==> qs[i] == ps[i] && qs[i + 1] == ps[i + 1] && more[i] == steps[i];
    }
  }

  lemma StepReaches(p: Pool, step: Step)
    requires Reaches(p) && Enabled(p, step)
    ensures Reaches(Next(p, step))
  {
    var ps: seq<Pool>, steps: seq<Step> :| Run(ps, steps) && ps[|ps| - 1] == p;
    Extended(ps, steps, step);
  }

  /** Two steps from `p` lead to `q`. */
  predicate Leads(p: Pool, first: Step, second: Step, q: Pool) {
    Enabled(p, first) && Enabled(Next(p, first), second) && Next(Next(p, first), second) == q
  }

  lemma LeadsReaches(p: Pool, first: Step, second: Step, q: Pool)
    requires Reaches(p) && Leads(p, first, second, q)
    ensures Reaches(q)
  {
    StepReaches(p, first);
    StepReaches(Next(p, first), second);
  }

  /** Connect, authorize, go online and take the parked record. */
  function Login(p: Pool, sid: Sid, w: Worker): Pool {
    p.(sessions := p.sessions[sid := Session(Bound(w), Adopted(Record([], p.now), Parked(p.stats, w), p.now))],
       stats := Take(MarkOnline(p.stats, w, 1, Secs(p.now)), w))
  }

  function Joined(p: Pool, sid: Sid, w: Worker): Pool {
    p.(sessions := p.sessions[sid := Session(Joining(w), Record([], p.now))])
  }

  lemma JoinLeads(p: Pool, sid: Sid, w: Worker)
    requires sid !in p.sessions && |p.sessions| < U64_MAX
    ensures Leads(p, Connect(sid), Request(sid, w, Granted), Joined(p, sid, w))
  {
    assert Next(Next(p, Connect(sid)), Request(sid, w, Granted)).sessions == Joined(p, sid, w).sessions;
  }

  lemma LoginLeads(p: Pool, sid: Sid, w: Worker)
    ensures Leads(Joined(p, sid, w), GoOnline(sid, 1), Adopt(sid), Login(p, sid, w))
  {
    assert Next(Next(Joined(p, sid, w), GoOnline(sid, 1)), Adopt(sid)).sessions == Login(p, sid, w).sessions;
  }

  lemma LoginReaches(p: Pool, sid: Sid, w: Worker)
    requires Reaches(p) && sid !in p.sessions && |p.sessions| < U64_MAX
    ensures Reaches(Login(p, sid, w))
  {
    JoinLeads(p, sid, w);
    LoginLeads(p, sid, w);
    LeadsReaches(p, Connect(sid), Request(sid, w, Granted), Joined(p, sid, w));
    LeadsReaches(Joined(p, sid, w), GoOnline(sid, 1), Adopt(sid), Login(p, sid, w));
  }

  /** An accepted share. */
  function Mine(p: Pool, sid: Sid, w: Worker, credited: nat): Pool
    requires sid in p.sessions
  {
    p.(sessions := p.sessions[sid := Session(Bound(w), Recorded(p.sessions[sid].record, p.now, credited))],
       stats := MarkSubmit(p.stats, w, Secs(p.now)),
       log := p.log[w := Log(p, w) + [Share(p.now, credited)]])
  }

  lemma MineLeads(p: Pool, sid: Sid, w: Worker, credited: nat)
    requires sid in p.sessions && p.sessions[sid].phase == Bound(w)
    ensures Leads(p, Accept(sid, credited), MarkSubmitted(sid), Mine(p, sid, w, credited))
  {
    assert Next(Next(p, Accept(sid, credited)), MarkSubmitted(sid)).sessions == Mine(p, sid, w, credited).sessions;
  }

  /** Close and park. */
  function Logout(p: Pool, sid: Sid, w: Worker): Pool
    requires sid in p.sessions
  {
    p.(sessions := p.sessions - {sid}, stats := Stash(MarkOffline(p.stats, w), w, p.sessions[sid].record))
  }

  lemma LogoutLeads(p: Pool, sid: Sid, w: Worker)
    requires sid in p.sessions && p.sessions[sid].phase == Bound(w)
    ensures Leads(p, Close(sid), Park(sid), Logout(p, sid, w))
  {
    assert Next(Next(p, Close(sid)), Park(sid)).sessions == Logout(p, sid, w).sessions;
  }

  // ----- Changing and losing an identity -----

  /** A bound session that authorizes as another worker: the old worker has one session
      less and its record is parked whole, the new one has one more and gets its parked
      record back on a fresh one. */
  lemma SwitchHandsOver(p: Pool, sid: Sid, prev: Worker, name: Worker, vardiff: nat)
    requires sid in p.sessions && p.sessions[sid].phase == Bound(prev) && name != prev
    ensures var (leave, arrive) := (Request(sid, name, Granted), GoOnline(sid, vardiff));
            Enabled(p, leave) && Enabled(Next(p, leave), Park(sid))
            && var a := Next(Next(p, leave), Park(sid));
               && Enabled(a, arrive) && Enabled(Next(a, arrive), Adopt(sid))
               && Switched(p, Next(Next(a, arrive), Adopt(sid)), sid, prev, name)
  {
    var a := Next(Next(p, Request(sid, name, Granted)), Park(sid));
    assert a.sessions[sid] == Session(Joining(name), Record([], p.now));
    assert a.stats == Stash(MarkOffline(p.stats, prev), prev, p.sessions[sid].record);
    SwitchArrives(p, a, sid, prev, name, vardiff);
  }

  function SessionsOf(s: Stats, w: Worker): nat { if w in s.workers then s.workers[w].activeSessions else 0 }

  ghost predicate Switched(p: Pool, q: Pool, sid: Sid, prev: Worker, name: Worker)
    requires sid in p.sessions
  {
    && sid in q.sessions && q.sessions[sid].phase == Bound(name)
    && prev in q.stats.parked && q.stats.parked[prev] == p.sessions[sid].record && name !in q.stats.parked
    && q.sessions[sid].record.shares == (if name in p.stats.parked then Retained(p.stats.parked[name].shares, p.now) else [])
    && (SessionsOf(p.stats, prev) > 0 ==> SessionsOf(q.stats, prev) == SessionsOf(p.stats, prev) - 1)
    && (SessionsOf(p.stats, name) < U64_MAX ==> SessionsOf(q.stats, name) == SessionsOf(p.stats, name) + 1)
    && name in q.stats.workers && q.stats.workers[name].online
  }

  lemma SwitchArrives(p: Pool, a: Pool, sid: Sid, prev: Worker, name: Worker, vardiff: nat)
    requires sid in p.sessions && name != prev && a.now == p.now
    requires sid in a.sessions && a.sessions[sid] == Session(Joining(name), Record([], p.now))
    requires a.stats == Stash(MarkOffline(p.stats, prev), prev, p.sessions[sid].record)
    ensures Enabled(a, GoOnline(sid, vardiff)) && Enabled(Next(a, GoOnline(sid, vardiff)), Adopt(sid))
    ensures Switched(p, Next(Next(a, GoOnline(sid, vardiff)), Adopt(sid)), sid, prev, name)
  {
    var b := Next(a, GoOnline(sid, vardiff));
    assert b.sessions[sid] == Session(Arriving(name), Record([], p.now)) && b.now == p.now;
    assert Parked(b.stats, name) == Parked(p.stats, name);
  }

  /** One identity too many ends the session, as closing it does; the record of a bound
      one is parked whole. */
  lemma TooManyEnds(p: Pool, sid: Sid, prev: Worker, name: Worker)
    requires sid in p.sessions && p.sessions[sid].phase == Bound(prev) && name != prev
    ensures var over := Request(sid, name, TooManyIdentities);
            Enabled(p, over) && Next(p, over) == Next(p, Close(sid))
            && Enabled(Next(p, over), Park(sid))
            && var q := Next(Next(p, over), Park(sid));
               && sid !in q.sessions && prev in q.stats.parked && q.stats.parked[prev] == p.sessions[sid].record
               && (SessionsOf(p.stats, prev) > 0 ==> SessionsOf(q.stats, prev) == SessionsOf(p.stats, prev) - 1)
  {
  }

  /** A session of `w` mines one share and leaves. */
  lemma MineAndLogoutReaches(p: Pool, sid: Sid, w: Worker, credited: nat)
    requires Reaches(p) && sid in p.sessions && p.sessions[sid].phase == Bound(w)
    ensures Reaches(Logout(Mine(p, sid, w, credited), sid, w))
  {
    var q := Mine(p, sid, w, credited);
    MineLeads(p, sid, w, credited);
    LeadsReaches(p, Accept(sid, credited), MarkSubmitted(sid), q);
    LogoutReaches(q, sid, w);
  }

  lemma LogoutReaches(p: Pool, sid: Sid, w: Worker)
    requires Reaches(p) && sid in p.sessions && p.sessions[sid].phase == Bound(w)
    ensures Reaches(Logout(p, sid, w))
  {
    LogoutLeads(p, sid, w);
    LeadsReaches(p, Close(sid), Park(sid), Logout(p, sid, w));
  }

  /** Credited work a 24-hour window should see. */
  function Due(p: Pool, w: Worker): nat { Work(Log(p, w), p.now, RETENTION) }

  lemma OneShareDue(p: Pool, w: Worker, credited: nat)
    requires Log(p, w) == [Share(p.now, credited)]
    ensures Due(p, w) == credited
  {
    var log := [Share(p.now, credited)];
    assert log[1..] == [] && Work(log[1..], p.now, RETENTION) == 0;
    assert Work(log, p.now, RETENTION) == credited;
  }

  /** Nobody carries the worker's record, and what is parked shows none of the five
      units a 24-hour window should see. */
  ghost predicate Loses(p: Pool, w: Worker) {
    !Carried(p, w) && Due(p, w) == 5 && Work(ParkedShares(p, w), p.now, RETENTION) == 0
  }

  lemma EmptyLoses(p: Pool, w: Worker)
    requires p.sessions == map[] && Log(p, w) == [Share(p.now, 5)] && ParkedShares(p, w) == []
    ensures Loses(p, w)
  {
    OneShareDue(p, w, 5);
  }

  /** Two sessions of one worker: the first mines, both leave, and the second one's
      empty record overwrites the first one's. */
  lemma TwoSessionsLoseWork(w: Worker)
    ensures exists p :: Reaches(p) && Loses(p, w)
  {
    StartReaches();
    LoginReaches(START, 0, w);
    var a := Login(START, 0, w);
    LoginReaches(a, 1, w);
    var b := Login(a, 1, w);
    MineAndLogoutReaches(b, 0, w, 5);
    var d := Logout(Mine(b, 0, w, 5), 0, w);
    assert d.sessions[1] == Session(Bound(w), Record([], 0));
    LogoutReaches(d, 1, w);
    var e := Logout(d, 1, w);
    assert ParkedShares(e, w) == [];
    assert e.sessions == map[];
    EmptyLoses(e, w);
  }

  const LATER: nat := 90_000 * SECOND

  /** A worker that came and went a day and an hour ago, just scanned. */
  lemma ScannedWorker(w: Worker) returns (p: Pool)
    ensures Reaches(p) && p.now == LATER && p.sessions == map[] && p.scanned == {w} && Log(p, w) == []
    ensures ParkedShares(p, w) == []
  {
    StartReaches();
    LoginReaches(START, 0, w);
    var a := Login(START, 0, w);
    LogoutReaches(a, 0, w);
    var b := Logout(a, 0, w);
    p := Next(Next(b, Tick(LATER)), Scan(w));
    LeadsReaches(b, Tick(LATER), Scan(w), p);
    GoneIsIdle(w);
  }

  lemma GoneIsIdle(w: Worker)
    ensures var b := Logout(Login(START, 0, w), 0, w);
            && b.sessions == map[] && b.scanned == {} && Log(b, w) == [] && ParkedShares(b, w) == []
            && Idle(b.stats, w, Secs(LATER))
  {
    var b := Logout(Login(START, 0, w), 0, w);
    assert Secs(LATER) == 90_000 && Secs(0) == 0;
    assert b.stats.workers[w] == WorkerState(false, 0, 1, 0, 0);
  }

  /** It comes back before its removal and is evicted with a session bound to it. */
  lemma LateRemovalHitsBoundWorker(w: Worker)
    ensures exists p :: Reaches(p) && Live(p, w) != {} && w !in p.stats.workers && !CountOk(p, w)
  {
    var a := ScannedWorker(w);
    LoginReaches(a, 1, w);
    var b := Login(a, 1, w);
    StepReaches(b, Remove(w));
    var p := Next(b, Remove(w));
    assert p.sessions[1].phase == Bound(w);
    assert 1 in Live(p, w);
  }

  /** If it mines and leaves again, its removal takes the fresh record along. */
  lemma LateRemovalLosesWork(w: Worker)
    ensures exists p :: Reaches(p) && Loses(p, w)
  {
    var a := ScannedWorker(w);
    LoginReaches(a, 1, w);
    MineAndLogoutReaches(Login(a, 1, w), 1, w, 5);
    MinedAndForgotten(a, w);
    var d := Logout(Mine(Login(a, 1, w), 1, w, 5), 1, w);
    StepReaches(d, Remove(w));
    EmptyLoses(Next(d, Remove(w)), w);
  }

  lemma MinedAndForgotten(a: Pool, w: Worker)
    requires a.sessions == map[] && Log(a, w) == [] && w in a.scanned
    ensures var d := Logout(Mine(Login(a, 1, w), 1, w, 5), 1, w);
            && Enabled(d, Remove(w)) && Next(d, Remove(w)).sessions == map[]
            && Next(d, Remove(w)).now == a.now && Log(Next(d, Remove(w)), w) == [Share(a.now, 5)] && ParkedShares(Next(d, Remove(w)), w) == []
  {
  }
}
