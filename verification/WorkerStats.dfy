/** Per-worker state of the stats collector (src/stats.rs): session counts, last
    submits and the share records parked between sessions. */
module WorkerStats {
  import opened Wrappers
  import opened ShareRecord

  type Worker = string

  const IDLE_WORKER_EVICT_SECS: nat := 86_400

  datatype WorkerState = WorkerState(online: bool, activeSessions: nat, currentVardiff: nat, connectedTs: nat, lastSubmitTs: nat)

  datatype Stats = Stats(workers: map<Worker, WorkerState>, lastSubmit: map<Worker, nat>, parked: map<Worker, Record>)

  function SaturatingInc(n: nat): nat { if n < U64_MAX then n + 1 else n }

  function MarkOnline(s: Stats, w: Worker, vardiff: nat, secs: nat): Stats {
    var state := if w in s.workers
      then s.workers[w].(online := true, currentVardiff := vardiff, connectedTs := secs,
                         activeSessions := SaturatingInc(s.workers[w].activeSessions))
      else WorkerState(true, 1, vardiff, secs, 0);
    s.(workers := s.workers[w := state])
  }

  function MarkOffline(s: Stats, w: Worker): Stats {
    if w !in s.workers then s
    else if s.workers[w].activeSessions > 1
      then s.(workers := s.workers[w := s.workers[w].(activeSessions := s.workers[w].activeSessions - 1)])
    else s.(workers := s.workers[w := s.workers[w].(activeSessions := 0, online := false)])
  }

  function MarkSubmit(s: Stats, w: Worker, secs: nat): Stats {
    Stats(if w in s.workers then s.workers[w := s.workers[w].(lastSubmitTs := secs)] else s.workers,
          s.lastSubmit[w := secs], s.parked)
  }

  function Stash(s: Stats, w: Worker, history: Record): Stats { s.(parked := s.parked[w := history]) }

  function Parked(s: Stats, w: Worker): Option<Record> { if w in s.parked then Some(s.parked[w]) else None }

  function Take(s: Stats, w: Worker): Stats { s.(parked := s.parked - {w}) }

  function UpdateVardiff(s: Stats, w: Worker, vardiff: nat, secs: nat): Stats {
    if w in s.workers then s.(workers := s.workers[w := s.workers[w].(currentVardiff := vardiff)])
    else MarkOnline(s, w, vardiff, secs)
  }

  function Cutoff(secs: nat): nat { if secs < IDLE_WORKER_EVICT_SECS then 0 else secs - IDLE_WORKER_EVICT_SECS }

  predicate Idle(s: Stats, w: Worker, secs: nat) {
    && w in s.workers && !s.workers[w].online
    && (if w in s.lastSubmit then s.lastSubmit[w] else s.workers[w].lastSubmitTs) < Cutoff(secs)
    && s.workers[w].connectedTs < Cutoff(secs)
  }

  function IdleWorkers(s: Stats, secs: nat): set<Worker> { set w | w in s.workers && Idle(s, w, secs) }

  function Forget(s: Stats, gone: set<Worker>): Stats {
    Stats(s.workers - gone, s.lastSubmit - gone, s.parked - gone)
  }

  function PruneIdle(s: Stats, secs: nat): Stats { Forget(s, IdleWorkers(s, secs)) }

  /** A worker is online exactly while it has sessions. */
  ghost predicate Consistent(s: Stats) {
    forall w :: w in s.workers ==> (s.workers[w].online <==> s.workers[w].activeSessions > 0)
  }

  /** A session that comes and goes leaves the count and the online flag as they were,
      and every other worker alone. */
  lemma ComeAndGo(s: Stats, w: Worker, vardiff: nat, secs: nat)
    requires Consistent(s) && (w in s.workers ==> s.workers[w].activeSessions < U64_MAX)
    ensures var t := MarkOffline(MarkOnline(s, w, vardiff, secs), w);
            && Consistent(t) && w in t.workers && t.workers - {w} == s.workers - {w}
            && t.workers[w].activeSessions == (if w in s.workers then s.workers[w].activeSessions else 0)
  {
    var t := MarkOffline(MarkOnline(s, w, vardiff, secs), w);
    assert t.workers.Keys == s.workers.Keys + {w};
  }

  /** A parked record is handed back once. */
  lemma ParkAndTake(s: Stats, w: Worker, history: Record)
    ensures Parked(Stash(s, w, history), w) == Some(history)
    ensures Parked(Take(Stash(s, w, history), w), w) == None
    ensures forall v :: v != w ==> Parked(Take(Stash(s, w, history), w), v) == Parked(s, v)
  {
  }

  lemma ForgetOne(s: Stats, gone: set<Worker>, w: Worker)
    ensures Forget(Forget(s, gone), {w}) == Forget(s, gone + {w})
  {
    assert s.workers - gone - {w} == s.workers - (gone + {w});
    assert s.lastSubmit - gone - {w} == s.lastSubmit - (gone + {w});
    assert s.parked - gone - {w} == s.parked - (gone + {w});
  }

  /** The collector without a stats store. */
  class PoolStats {
    var workerStates: map<Worker, WorkerState>
    var workerLastSubmitTs: map<Worker, nat>
    var workerShareHistory: map<Worker, Record>

    function Value(): Stats reads this { Stats(workerStates, workerLastSubmitTs, workerShareHistory) }

    ghost predicate Valid() reads this { Consistent(Value()) }

    constructor ()
      ensures Valid() && Value() == Stats(map[], map[], map[])
    {
      workerStates := map[];
      workerLastSubmitTs := map[];
      workerShareHistory := map[];
    }

    method MarkWorkerOnline(w: Worker, vardiff: nat, secs: nat)
      requires Valid()
      modifies this`workerStates
      ensures w in workerStates && workerStates - {w} == old(workerStates) - {w}
      ensures workerStates[w].online && workerStates[w].currentVardiff == vardiff && workerStates[w].connectedTs == secs
      ensures w !in old(workerStates) ==> workerStates[w].activeSessions == 1 && workerStates[w].lastSubmitTs == 0
      ensures w in old(workerStates) ==>
        && workerStates[w].lastSubmitTs == old(workerStates)[w].lastSubmitTs
        && (old(workerStates)[w].activeSessions < U64_MAX ==>
              workerStates[w].activeSessions == old(workerStates)[w].activeSessions + 1)
      ensures Valid() && Value() == MarkOnline(old(Value()), w, vardiff, secs)
    {
      if w in workerStates {
        var state := workerStates[w];
        var sessions := SaturatingInc(state.activeSessions);
        workerStates := workerStates[w := state.(online := true, currentVardiff := vardiff,
                                                 connectedTs := secs, activeSessions := sessions)];
      } else {
        workerStates := workerStates[w := WorkerState(true, 1, vardiff, secs, 0)];
      }
    }

    method MarkWorkerOffline(w: Worker)
      requires Valid()
      modifies this`workerStates
      ensures workerStates.Keys == old(workerStates).Keys && workerStates - {w} == old(workerStates) - {w}
      ensures w in workerStates ==>
        var n := old(workerStates)[w].activeSessions;
        && workerStates[w].activeSessions == (if n == 0 then 0 else n - 1)
        && (workerStates[w].online <==> n > 1)
        && workerStates[w].lastSubmitTs == old(workerStates)[w].lastSubmitTs
        && workerStates[w].connectedTs == old(workerStates)[w].connectedTs
      ensures Valid() && Value() == MarkOffline(old(Value()), w)
    {
      if w in workerStates {
        var state := workerStates[w];
        if state.activeSessions > 1 {
          workerStates := workerStates[w := state.(activeSessions := state.activeSessions - 1)];
        } else {
          workerStates := workerStates[w := state.(activeSessions := 0, online := false)];
        }
      }
    }

    method MarkWorkerSubmit(w: Worker, secs: nat)
      requires Valid()
      modifies this`workerStates, this`workerLastSubmitTs
      ensures w in workerLastSubmitTs && workerLastSubmitTs[w] == secs
      ensures workerStates.Keys == old(workerStates).Keys && (w in workerStates ==> workerStates[w].lastSubmitTs == secs)
      ensures Valid() && Value() == MarkSubmit(old(Value()), w, secs)
    {
      workerLastSubmitTs := workerLastSubmitTs[w := secs];
      if w in workerStates {
        workerStates := workerStates[w := workerStates[w].(lastSubmitTs := secs)];
      }
    }

    method StashShareHistory(w: Worker, history: Record)
      requires Valid()
      modifies this`workerShareHistory
      ensures Valid() && Value() == Stash(old(Value()), w, history)
    {
      workerShareHistory := workerShareHistory[w := history];
    }

    method TakeShareHistory(w: Worker) returns (history: Option<Record>)
      requires Valid()
      modifies this`workerShareHistory
      ensures Valid() && history == Parked(old(Value()), w) && Value() == Take(old(Value()), w)
    {
      history := if w in workerShareHistory then Some(workerShareHistory[w]) else None;
      workerShareHistory := workerShareHistory - {w};
    }

    method UpdateWorkerVardiff(w: Worker, vardiff: nat, secs: nat)
      requires Valid()
      modifies this`workerStates
      ensures w in workerStates && workerStates[w].currentVardiff == vardiff
      ensures w in old(workerStates) ==>
        workerStates == old(workerStates)[w := old(workerStates)[w].(currentVardiff := vardiff)]
      ensures w !in old(workerStates) ==> workerStates == old(workerStates)[w := WorkerState(true, 1, vardiff, secs, 0)]
      ensures Valid() && Value() == UpdateVardiff(old(Value()), w, vardiff, secs)
    {
      if w in workerStates {
        workerStates := workerStates[w := workerStates[w].(currentVardiff := vardiff)];
      } else {
        MarkWorkerOnline(w, vardiff, secs);
      }
    }

    /** A worker goes exactly when it is offline and both its last submit and its last
        connection are more than 24 hours back; with it goes everything kept for it. */
    method PruneIdleWorkers(secs: nat)
      requires Valid()
      modifies this
      ensures forall v <- old(workerStates) ::
        (v in workerStates <==>
           || old(workerStates)[v].online
           || secs <= old(workerStates)[v].connectedTs + 86_400
           || secs <= (if v in old(workerLastSubmitTs) then old(workerLastSubmitTs)[v] else old(workerStates)[v].lastSubmitTs) + 86_400)
      ensures forall v <- workerStates :: v in old(workerStates) && workerStates[v] == old(workerStates)[v]
      ensures forall v <- old(workerLastSubmitTs) :: v in workerLastSubmitTs || (v in old(workerStates) && v !in workerStates)
      ensures forall v <- old(workerShareHistory) :: v in workerShareHistory || (v in old(workerStates) && v !in workerStates)
      ensures Valid() && Value() == PruneIdle(old(Value()), secs)
    {
      var stale := IdleWorkers(Value(), secs);
      var todo := stale;
      while todo != {}
        invariant todo <= stale
        invariant Value() == Forget(old(Value()), stale - todo)
        decreases todo
      {
        var w :| w in todo;
        workerStates := workerStates - {w};
        workerShareHistory := workerShareHistory - {w};
        workerLastSubmitTs := workerLastSubmitTs - {w};
        ForgetOne(old(Value()), stale - todo, w);
        assert stale - (todo - {w}) == stale - todo + {w};
        todo := todo - {w};
      }
      assert stale - todo == stale;
    }
  }
}
