/** The template engine's current job and job history (src/mining/engine.rs).

    A refresh replaces the current job under one lock and appends to an
    eight-deep history under another. A share is stale when a clean job follows
    its job in that history. What has to hold is that a share which is not stale
    builds on the tip the current job builds on, however old jobs are evicted and
    whichever refresh first notices a new tip. */
module JobHistory {
  import opened Wrappers

  const JOB_HISTORY_DEPTH := 8

  /** The parts of a job the history cares about; `content` is everything else. */
  datatype Job = Job(id: string, prevHash: string, content: nat)

  datatype Entry = Entry(job: Job, clean: bool)

  /** What `find_job` returns. */
  datatype Lookup = Lookup(job: Job, superseded: bool)

  predicate TipMoved(current: Option<string>, next: string) {
    current != Some(next)
  }

  function Tip(current: Option<Job>): Option<string> {
    if current.Some? then Some(current.value.prevHash) else None
  }

  /** The entry a refresh makes of a freshly built job. */
  function MakeEntry(current: Option<Job>, job: Job, cleanRequested: bool): Entry {
    Entry(job, cleanRequested || TipMoved(Tip(current), job.prevHash))
  }

  function Push(history: seq<Entry>, e: Entry): seq<Entry> {
    (if |history| >= JOB_HISTORY_DEPTH then history[1..] else history) + [e]
  }

  predicate AnyClean(entries: seq<Entry>) {
    exists i :: 0 <= i < |entries| && entries[i].clean
  }

  /** First position holding the id. */
  function Position(history: seq<Entry>, id: string): (r: Option<nat>)
    ensures r.Some? ==> r.value < |history| && history[r.value].job.id == id
    ensures r.Some? ==> forall i :: 0 <= i < r.value ==> history[i].job.id != id
    ensures r.None? ==> forall i :: 0 <= i < |history| ==> history[i].job.id != id
  {
    if history == [] then None
    else if history[0].job.id == id then Some(0)
    else match Position(history[1..], id)
      case None => None
      case Some(k) => Some(k + 1)
  }

  function Find(history: seq<Entry>, id: string): Option<Lookup> {
    match Position(history, id)
    case None => None
    case Some(k) => Some(Lookup(history[k].job, AnyClean(history[k + 1..])))
  }

  // ----- The engine object -----

  /** Everything ever pushed, most recent last; the history is its tail. */
  function LastEntries(log: seq<Entry>): (h: seq<Entry>)
    ensures |h| == if |log| < JOB_HISTORY_DEPTH then |log| else JOB_HISTORY_DEPTH
  {
    if |log| <= JOB_HISTORY_DEPTH then log else log[|log| - JOB_HISTORY_DEPTH..]
  }

  lemma PushKeepsTail(log: seq<Entry>, e: Entry)
    ensures Push(LastEntries(log), e) == LastEntries(log + [e])
  {
  }

  /** Wherever the tip changes along the log, the later entry is clean. */
  ghost predicate TipsFlagged(log: seq<Entry>) {
    forall i :: 0 < i < |log| && log[i].job.prevHash != log[i - 1].job.prevHash ==> log[i].clean
  }

  lemma {:induction false} SameTipUntilClean(log: seq<Entry>, i: nat, j: nat)
    requires TipsFlagged(log) && i <= j < |log|
    requires forall k :: i < k <= j ==> !log[k].clean
    ensures log[i].job.prevHash == log[j].job.prevHash
  {
    if i < j {
      SameTipUntilClean(log, i, j - 1);
    }
  }

  /** A job is clean exactly when that was asked for, it is the first, or its tip is not
      that of the job before. */
  ghost predicate Flagged(log: seq<Entry>, asked: seq<bool>) {
    |asked| == |log| && forall i: nat :: i < |log| ==> FlagRight(log, asked, i)
  }

  predicate FlagRight(log: seq<Entry>, asked: seq<bool>, i: nat)
    requires i < |log| == |asked|
  {
    log[i].clean <==> asked[i] || i == 0 || log[i].job.prevHash != log[i - 1].job.prevHash
  }

  lemma FlaggedOneMore(log: seq<Entry>, asked: seq<bool>, e: Entry, ask: bool)
    requires Flagged(log, asked)
    requires e.clean <==> ask || log == [] || e.job.prevHash != log[|log| - 1].job.prevHash
    ensures Flagged(log + [e], asked + [ask])
  {
    var (more, asks) := (log + [e], asked + [ask]);
    forall i: nat | i < |more| ensures FlagRight(more, asks, i) {
      if i < |log| {
        FlagKept(log, asked, e, ask, i);
      } else {
        assert more[i] == e && asks[i] == ask && (i > 0 ==> more[i - 1] == log[|log| - 1]);
      }
    }
  }

  lemma FlagKept(log: seq<Entry>, asked: seq<bool>, e: Entry, ask: bool, i: nat)
    requires i < |log| == |asked| && FlagRight(log, asked, i)
    ensures FlagRight(log + [e], asked + [ask], i)
  {
  }

  lemma FlaggedTips(log: seq<Entry>, asked: seq<bool>)
    requires Flagged(log, asked)
    ensures TipsFlagged(log)
  {
    forall i | 0 < i < |log| && log[i].job.prevHash != log[i - 1].job.prevHash ensures log[i].clean {
      assert FlagRight(log, asked, i);
    }
  }

  /** The refresh of job `j` asked for a clean job or changed the tip. */
  predicate Retires(log: seq<Entry>, asked: seq<bool>, j: nat)
    requires 0 < j < |log| <= |asked|
  {
    asked[j] || log[j].job.prevHash != log[j - 1].job.prevHash
  }

  /** A later one did. */
  ghost predicate Retired(log: seq<Entry>, asked: seq<bool>, i: nat)
    requires |log| <= |asked|
  {
    exists j :: i < j < |log| && Retires(log, asked, j)
  }

  lemma CleanWhenRetires(log: seq<Entry>, asked: seq<bool>, j: nat)
    requires Flagged(log, asked) && 0 < j < |log|
    ensures log[j].clean <==> Retires(log, asked, j)
  {
    assert FlagRight(log, asked, j);
  }

  lemma LaterClean(log: seq<Entry>, asked: seq<bool>, i: nat)
    requires Flagged(log, asked) && i < |log|
    ensures AnyClean(log[i + 1..]) <==> Retired(log, asked, i)
  {
    var rest := log[i + 1..];
    if AnyClean(rest) {
      var k :| 0 <= k < |rest| && rest[k].clean;
      assert log[i + 1 + k] == rest[k];
      CleanWhenRetires(log, asked, i + 1 + k);
      assert Retires(log, asked, i + 1 + k);
    }
    if Retired(log, asked, i) {
      var j :| i < j < |log| && Retires(log, asked, j);
      CleanWhenRetires(log, asked, j);
      assert rest[j - i - 1] == log[j];
    }
  }

  /** The history is the tail of the log, whose last job is the current one. */
  ghost predicate Keeps(current: Option<Job>, history: seq<Entry>, log: seq<Entry>, asked: seq<bool>) {
    && history == LastEntries(log) && Flagged(log, asked)
    && current == (if log == [] then None else Some(log[|log| - 1].job))
  }

  lemma RefreshKeeps(current: Option<Job>, history: seq<Entry>, log: seq<Entry>, asked: seq<bool>, e: Entry, ask: bool)
    requires Keeps(current, history, log, asked)
    requires e.clean <==> ask || current.None? || current.value.prevHash != e.job.prevHash
    ensures Keeps(Some(e.job), Push(history, e), log + [e], asked + [ask])
  {
    PushKeepsTail(log, e);
    FlaggedOneMore(log, asked, e, ask);
  }

  class TemplateEngine {
    var currentJob: Option<Job>
    var jobHistory: seq<Entry>
    /** Every job ever issued, and whether its refresh asked for a clean one. */
    ghost var issued: seq<Entry>
    ghost var asked: seq<bool>

    ghost predicate Valid()
      reads this
    {
      Keeps(currentJob, jobHistory, issued, asked)
    }

    constructor ()
      ensures Valid() && issued == [] && asked == []
    {
      currentJob, jobHistory, issued, asked := None, [], [], [];
    }

    /** `refresh`. `built` is None when the payout address is invalid, the node
        gave no template or the job could not be built: nothing changes then. The new
        job is clean exactly when that was asked for, there was no current job, or the
        current one builds on another block. */
    method Refresh(cleanJobs: bool, built: Option<Job>)
      requires Valid()
      modifies this
      ensures Valid()
      ensures built.None? ==> issued == old(issued) && asked == old(asked)
      ensures built.Some? ==> currentJob == built && asked == old(asked) + [cleanJobs]
      ensures built.Some? ==> exists clean: bool ::
        && issued == old(issued) + [Entry(built.value, clean)]
        && (clean <==> cleanJobs || old(currentJob).None? || old(currentJob).value.prevHash != built.value.prevHash)
    {
      if built.Some? {
        var job := built.value;
        var tipChanged := TipMoved(Tip(currentJob), job.prevHash);
        var clean := cleanJobs || tipChanged;
        currentJob := Some(job);
        if |jobHistory| >= JOB_HISTORY_DEPTH {
          jobHistory := jobHistory[1..];
        }
        jobHistory := jobHistory + [Entry(job, clean)];
        RefreshKeeps(old(currentJob), old(jobHistory), issued, asked, Entry(job, clean), cleanJobs);
        issued := issued + [Entry(job, clean)];
        asked := asked + [cleanJobs];
      }
    }

    /** `find_job`. A job that is not superseded builds on the current tip; one
        that is found is among the last eight issued, superseded exactly when a later
        refresh asked for a clean job or changed the tip. */
    method FindJob(id: string) returns (r: Option<Lookup>)
      requires Valid()
      ensures r.Some? ==> r.value.job.id == id
      ensures r.Some? && !r.value.superseded ==>
                currentJob.Some? && r.value.job.prevHash == currentJob.value.prevHash
      ensures r.Some? ==>
                exists i: nat :: OldestLive(issued, id, i) && r.value == Lookup(issued[i].job, AnyClean(issued[i + 1..]))
      ensures r.None? <==> forall i :: 0 <= i < |issued| && |issued| - 8 <= i ==> issued[i].job.id != id
      ensures r.Some? ==> exists i: nat :: IsLookup(r.value, issued, asked, i)
    {
      r := Find(jobHistory, id);
      FlaggedTips(issued, asked);
      LookupInLog(issued, id, r);
      if r.Some? {
        LookupIs(issued, asked, id, r.value);
      }
    }
  }

  /** The answer for one of the last eight jobs issued: the job itself, superseded exactly
      when a later refresh asked for a clean job or changed the tip. */
  ghost predicate IsLookup(l: Lookup, log: seq<Entry>, asked: seq<bool>, i: nat) {
    && |log| <= |asked| && |log| - 8 <= i < |log|
    && l.job == log[i].job && (l.superseded <==> Retired(log, asked, i))
  }

  lemma LookupIs(log: seq<Entry>, asked: seq<bool>, id: string, l: Lookup)
    requires Flagged(log, asked)
    requires exists i: nat :: OldestLive(log, id, i) && l == Lookup(log[i].job, AnyClean(log[i + 1..]))
    ensures exists i: nat :: IsLookup(l, log, asked, i)
  {
    var i: nat :| OldestLive(log, id, i) && l == Lookup(log[i].job, AnyClean(log[i + 1..]));
    LaterClean(log, asked, i);
    assert IsLookup(l, log, asked, i);
  }

  /** The first of the last eight issued jobs with this id. */
  ghost predicate OldestLive(log: seq<Entry>, id: string, i: nat) {
    && Base(log) <= i < |log| && log[i].job.id == id
    && forall k :: Base(log) <= k < i ==> log[k].job.id != id
  }

  /** Where the history starts in the log. */
  function Base(log: seq<Entry>): (b: nat)
    ensures b + |LastEntries(log)| == |log|
    ensures b == 0 || b == |log| - JOB_HISTORY_DEPTH
    ensures LastEntries(log) == log[b..]
  {
    |log| - |LastEntries(log)|
  }

  lemma FindMisses(log: seq<Entry>, id: string)
    requires Position(log[Base(log)..], id).None?
    ensures forall i :: Base(log) <= i < |log| ==> log[i].job.id != id
  {
    var h := log[Base(log)..];
    forall i | Base(log) <= i < |log| ensures log[i].job.id != id { assert h[i - Base(log)] == log[i]; }
  }

  lemma FindHits(log: seq<Entry>, id: string, k: nat)
    requires Position(log[Base(log)..], id) == Some(k)
    ensures OldestLive(log, id, Base(log) + k)
    ensures Find(log[Base(log)..], id) == Some(Lookup(log[Base(log) + k].job, AnyClean(log[Base(log) + k + 1..])))
  {
    var h, b := log[Base(log)..], Base(log);
    assert h[k + 1..] == log[b + k + 1..];
    forall m | b <= m < b + k ensures log[m].job.id != id { assert h[m - b] == log[m]; }
  }

  lemma LiveSameTip(log: seq<Entry>, i: nat)
    requires TipsFlagged(log) && i < |log| && !AnyClean(log[i + 1..])
    ensures log[i].job.prevHash == log[|log| - 1].job.prevHash
  {
    forall m | i < m < |log| ensures !log[m].clean { assert log[i + 1..][m - i - 1] == log[m]; }
    SameTipUntilClean(log, i, |log| - 1);
  }

  /** No job among the last eight has the id. */
  ghost predicate Unknown(log: seq<Entry>, id: string) {
    forall i :: Base(log) <= i < |log| ==> log[i].job.id != id
  }

  /** A lookup in the bounded history, in terms of the unbounded log: it misses
      exactly the ids not among the last eight jobs, finds the oldest of them with
      the id, reports it superseded exactly when a clean job was issued later, and
      otherwise its tip is the newest job's. */
  lemma LookupInLog(log: seq<Entry>, id: string, r: Option<Lookup>)
    requires TipsFlagged(log) && r == Find(LastEntries(log), id)
    ensures r.None? <==> Unknown(log, id)
    ensures r.Some? ==> exists i: nat :: OldestLive(log, id, i) && r.value == Lookup(log[i].job, AnyClean(log[i + 1..]))
    ensures r.Some? && !r.value.superseded ==> log != [] && r.value.job.prevHash == log[|log| - 1].job.prevHash
  {
    match Position(log[Base(log)..], id)
    case None =>
      FindMisses(log, id);
    case Some(k) =>
      FoundInLog(log, id, k);
  }

  lemma FoundInLog(log: seq<Entry>, id: string, k: nat)
    requires TipsFlagged(log) && Position(log[Base(log)..], id) == Some(k)
    ensures !Unknown(log, id)
    ensures var r := Find(log[Base(log)..], id);
            && r.Some?
            && (exists i: nat :: OldestLive(log, id, i) && r.value == Lookup(log[i].job, AnyClean(log[i + 1..])))
            && (!r.value.superseded ==> log != [] && r.value.job.prevHash == log[|log| - 1].job.prevHash)
  {
    FindHits(log, id, k);
    if !AnyClean(log[Base(log) + k + 1..]) {
      LiveSameTip(log, Base(log) + k);
    }
  }

  // ----- Overlapping refreshes -----

  /** The two lock sections as separate steps. `pending` holds the entries of
      refreshes that have replaced the current job but not yet reached the
      history, in the order they replaced it; `issued` is the order of appends. */
  datatype Shared = Shared(current: Option<Job>, history: seq<Entry>, pending: seq<Entry>, issued: seq<Entry>)

  datatype Step = Replace(job: Job, clean: bool) | Append(which: nat)

  function Apply(s: Shared, step: Step): Shared {
    match step
    case Replace(job, clean) =>
      s.(current := Some(job), pending := s.pending + [MakeEntry(s.current, job, clean)])
    case Append(k) =>
      if k >= |s.pending| then s
      else s.(history := Push(s.history, s.pending[k]), issued := s.issued + [s.pending[k]],
              pending := s.pending[..k] + s.pending[k + 1..])
  }

  function Run(steps: seq<Step>): Shared {
    if steps == [] then Shared(None, [], [], []) else Apply(Run(steps[..|steps| - 1]), steps[|steps| - 1])
  }

  /** What the replacing step of a refresh queues for the history. */
  lemma ReplaceFlags(s: Shared, job: Job, clean: bool)
    ensures var q := Apply(s, Replace(job, clean));
            && q.current == Some(job) && q.history == s.history && |q.pending| == |s.pending| + 1
            && q.pending[|s.pending|].job == job
            && (q.pending[|s.pending|].clean <==> clean || s.current.None? || s.current.value.prevHash != job.prevHash)
  {
  }

  lemma {:induction false} RunHistory(steps: seq<Step>)
    ensures Run(steps).history == LastEntries(Run(steps).issued)
  {
    if steps != [] {
      var (s, last) := (Run(steps[..|steps| - 1]), steps[|steps| - 1]);
      RunHistory(steps[..|steps| - 1]);
      if last.Append? && last.which < |s.pending| {
        PushKeepsTail(s.issued, s.pending[last.which]);
      }
    }
  }

  /** Over every run, appends in any order: a lookup misses exactly the ids not among the
      last eight appended, and finds the oldest with the id, superseded exactly when an
      entry appended later was flagged clean. */
  lemma AnyOrderLookup(steps: seq<Step>, id: string)
    ensures var (log, r) := (Run(steps).issued, Find(Run(steps).history, id));
            && (r.None? <==> Unknown(log, id))
            && (r.Some? ==> exists i: nat :: OldestLive(log, id, i) && r.value == Lookup(log[i].job, AnyClean(log[i + 1..])))
  {
    var log := Run(steps).issued;
    RunHistory(steps);
    match Position(log[Base(log)..], id)
    case None =>
      FindMisses(log, id);
    case Some(k) =>
      FindHits(log, id, k);
      assert log[Base(log) + k].job.id == id;
  }

  /** Refreshes reach the history in the order they replaced the current job;
      refreshes run one at a time are the special case with one pending entry. */
  ghost predicate InOrder(steps: seq<Step>) {
    forall i :: 0 <= i < |steps| && steps[i].Append? ==> steps[i].which == 0
  }

  ghost predicate Coherent(s: Shared) {
    var all := s.issued + s.pending;
    && s.history == LastEntries(s.issued)
    && TipsFlagged(all)
    && s.current == (if all == [] then None else Some(all[|all| - 1].job))
  }

  lemma FlaggedExtends(all: seq<Entry>, current: Option<Job>, job: Job, clean: bool)
    requires TipsFlagged(all) && current == (if all == [] then None else Some(all[|all| - 1].job))
    ensures TipsFlagged(all + [MakeEntry(current, job, clean)])
  {
  }

  lemma MoveFirst(a: seq<Entry>, b: seq<Entry>)
    requires b != []
    ensures (a + [b[0]]) + (b[..0] + b[1..]) == a + b
  {
    assert b == [b[0]] + b[1..];
  }

  lemma StepKeepsCoherent(s: Shared, step: Step)
    requires Coherent(s) && (step.Append? ==> step.which == 0)
    ensures Coherent(Apply(s, step))
  {
    match step
    case Replace(job, clean) =>
      var e := MakeEntry(s.current, job, clean);
      FlaggedExtends(s.issued + s.pending, s.current, job, clean);
      assert s.issued + (s.pending + [e]) == s.issued + s.pending + [e];
    case Append(k) =>
      if s.pending != [] {
        PushKeepsTail(s.issued, s.pending[0]);
        MoveFirst(s.issued, s.pending);
      }
  }

  lemma {:induction false} RunsAreCoherent(steps: seq<Step>)
    requires InOrder(steps)
    ensures Coherent(Run(steps))
  {
    if steps != [] {
      RunsAreCoherent(steps[..|steps| - 1]);
      StepKeepsCoherent(Run(steps[..|steps| - 1]), steps[|steps| - 1]);
    }
  }

  /** The tip of the newest job in the history. */
  function HistoryTip(history: seq<Entry>): Option<string> {
    if history == [] then None else Some(history[|history| - 1].job.prevHash)
  }

  lemma NewestIsLast(log: seq<Entry>)
    requires log != []
    ensures HistoryTip(LastEntries(log)) == Some(log[|log| - 1].job.prevHash)
  {
    var b := Base(log);
    assert log[b..][|log| - 1 - b] == log[|log| - 1];
  }

  lemma FlaggedPrefix(a: seq<Entry>, b: seq<Entry>)
    requires TipsFlagged(a + b)
    ensures TipsFlagged(a)
  {
    forall i | 0 < i < |a| && a[i].job.prevHash != a[i - 1].job.prevHash ensures a[i].clean {
      assert (a + b)[i] == a[i] && (a + b)[i - 1] == a[i - 1];
    }
  }

  /** Every job in the history that is not superseded has the tip of the newest. */
  ghost predicate LiveAgree(history: seq<Entry>) {
    forall i :: 0 <= i < |history| && Live(history, i) ==> HistoryTip(history) == Some(history[i].job.prevHash)
  }

  predicate Live(history: seq<Entry>, i: nat)
    requires i < |history|
  {
    !AnyClean(history[i + 1..])
  }

  /** The entry retires what is there, or continues it. */
  predicate Continues(history: seq<Entry>, e: Entry) {
    e.clean || history == [] || HistoryTip(history) == Some(e.job.prevHash)
  }

  lemma LiveAfterAppend(kept: seq<Entry>, e: Entry, i: nat)
    requires i < |kept|
    ensures Live(kept + [e], i) <==> Live(kept, i) && !e.clean
  {
    var (rest, longer) := (kept[i + 1..], (kept + [e])[i + 1..]);
    assert longer == rest + [e];
    if AnyClean(rest) {
      var k :| 0 <= k < |rest| && rest[k].clean;
      assert longer[k].clean;
    }
    if e.clean {
      assert longer[|rest|].clean;
    }
  }

  lemma DropFirst(history: seq<Entry>)
    requires LiveAgree(history) && |history| > 1
    ensures LiveAgree(history[1..]) && HistoryTip(history[1..]) == HistoryTip(history)
  {
    var rest := history[1..];
    forall i | 0 <= i < |rest| && Live(rest, i) ensures HistoryTip(rest) == Some(rest[i].job.prevHash) {
      assert rest[i + 1..] == history[i + 2..];
      assert Live(history, i + 1) && rest[i] == history[i + 1];
    }
  }

  lemma AppendAgreesIff(kept: seq<Entry>, e: Entry)
    requires LiveAgree(kept)
    ensures LiveAgree(kept + [e]) <==> Continues(kept, e)
  {
    var longer := kept + [e];
    if Continues(kept, e) {
      forall i | 0 <= i < |longer| && Live(longer, i) ensures longer[i].job.prevHash == e.job.prevHash {
        if i < |kept| {
          LiveAfterAppend(kept, e, i);
        }
      }
    } else {
      var n := |kept| - 1;
      LiveAfterAppend(kept, e, n);
      assert kept[n + 1..] == [];
      assert Live(longer, n) && longer[n] == kept[n];
    }
  }

  /** One append, in whatever order: the live jobs still agree exactly when the new entry
      is clean, is the first, or has the tip of the newest. */
  lemma PushAgreesIff(history: seq<Entry>, e: Entry)
    requires LiveAgree(history)
    ensures LiveAgree(Push(history, e)) <==> Continues(history, e)
  {
    if |history| >= JOB_HISTORY_DEPTH {
      DropFirst(history);
      AppendAgreesIff(history[1..], e);
    } else {
      AppendAgreesIff(history, e);
    }
  }

  /** An append step passes that test. */
  predicate Fits(s: Shared, step: Step) {
    step.Append? && step.which < |s.pending| ==> Continues(s.history, s.pending[step.which])
  }

  predicate FitsAt(steps: seq<Step>, i: nat)
    requires i < |steps|
  {
    Fits(Run(steps[..i]), steps[i])
  }

  ghost predicate AgreesAt(steps: seq<Step>, i: nat)
    requires i <= |steps|
  {
    LiveAgree(Run(steps[..i]).history)
  }

  ghost predicate AllFit(steps: seq<Step>) { forall i :: 0 <= i < |steps| ==> FitsAt(steps, i) }

  ghost predicate AllAgree(steps: seq<Step>) { forall i :: 0 <= i <= |steps| ==> AgreesAt(steps, i) }

  lemma SamePrefix(init: seq<Step>, last: Step, i: nat)
    requires i <= |init|
    ensures AgreesAt(init + [last], i) <==> AgreesAt(init, i)
    ensures i < |init| ==> (FitsAt(init + [last], i) <==> FitsAt(init, i))
  {
    assert (init + [last])[..i] == init[..i];
  }

  lemma FitOneMore(init: seq<Step>, last: Step)
    ensures AllFit(init + [last]) <==> AllFit(init) && Fits(Run(init), last)
  {
    var (steps, n) := (init + [last], |init|);
    forall i | 0 <= i < n ensures FitsAt(steps, i) <==> FitsAt(init, i) {
      SamePrefix(init, last, i);
    }
    assert steps[..n] == init;
    assert FitsAt(steps, n) <==> Fits(Run(init), last);
  }

  lemma AgreeOneMore(init: seq<Step>, last: Step)
    ensures AllAgree(init + [last]) <==> AllAgree(init) && LiveAgree(Run(init + [last]).history)
  {
    var (steps, n) := (init + [last], |init|);
    forall i | 0 <= i <= n ensures AgreesAt(steps, i) <==> AgreesAt(init, i) {
      SamePrefix(init, last, i);
    }
    assert steps[..n + 1] == steps;
    assert AgreesAt(steps, n + 1) <==> LiveAgree(Run(steps).history);
  }

  lemma AgreeNow(steps: seq<Step>)
    requires AllAgree(steps)
    ensures LiveAgree(Run(steps).history)
  {
    assert AgreesAt(steps, |steps|) && steps[..|steps|] == steps;
  }

  /** Over every run, with appends in any order: the live jobs agree at every moment
      exactly when every append passes the test. */
  lemma {:induction false} LiveAgreeIff(steps: seq<Step>)
    ensures AllAgree(steps) <==> AllFit(steps)
  {
    if steps == [] {
      assert LiveAgree(Run([]).history);
      assert AgreesAt(steps, 0);
    } else {
      var (init, last) := (steps[..|steps| - 1], steps[|steps| - 1]);
      assert steps == init + [last];
      LiveAgreeIff(init);
      FitOneMore(init, last);
      AgreeOneMore(init, last);
      if AllAgree(init) {
        AgreeNow(init);
        StepAgreesIff(Run(init), last);
      }
    }
  }

  lemma StepAgreesIff(s: Shared, step: Step)
    requires LiveAgree(s.history)
    ensures LiveAgree(Apply(s, step).history) <==> Fits(s, step)
  {
    if step.Append? && step.which < |s.pending| {
      PushAgreesIff(s.history, s.pending[step.which]);
    }
  }

  /** Appends in order pass it. */
  lemma InOrderFits(steps: seq<Step>)
    requires InOrder(steps)
    ensures AllFit(steps)
  {
    forall i | 0 <= i <= |steps| ensures AgreesAt(steps, i) {
      InOrderAgrees(steps[..i]);
    }
    LiveAgreeIff(steps);
  }

  lemma InOrderAgrees(steps: seq<Step>)
    requires InOrder(steps)
    ensures LiveAgree(Run(steps).history)
  {
    var s := Run(steps);
    RunsAreCoherent(steps);
    FlaggedPrefix(s.issued, s.pending);
    FlaggedAgree(s.issued);
  }

  lemma FlaggedAgree(log: seq<Entry>)
    requires TipsFlagged(log)
    ensures LiveAgree(LastEntries(log))
  {
    var (h, b) := (LastEntries(log), Base(log));
    forall i | 0 <= i < |h| && Live(h, i) ensures HistoryTip(h) == Some(h[i].job.prevHash) {
      assert h[i] == log[b + i] && h[i + 1..] == log[b + i + 1..];
      LiveSameTip(log, b + i);
      NewestIsLast(log);
    }
  }

  /** So at every moment of such a run, also between a refresh's two lock sections, a job
      that is not superseded has the tip of the newest job in the history, */
  lemma LiveJobsShareNewestTip(steps: seq<Step>, id: string)
    requires AllFit(steps)
    ensures var s := Run(steps); var r := Find(s.history, id);
            r.Some? && !r.value.superseded ==> HistoryTip(s.history) == Some(r.value.job.prevHash)
  {
    LiveAgreeIff(steps);
    AgreeNow(steps);
    var s := Run(steps);
    var k := Position(s.history, id);
    if k.Some? {
      assert Live(s.history, k.value) <==> !Find(s.history, id).value.superseded;
    }
  }

  /** and it has the current tip exactly when the newest job in the history builds on it:
      not from the moment a refresh that moved the tip replaced the current job until it
      has appended. */
  lemma LiveTipIff(steps: seq<Step>, id: string)
    requires AllFit(steps)
    requires var r := Find(Run(steps).history, id); r.Some? && !r.value.superseded
    ensures var s := Run(steps);
            Tip(s.current) == Some(Find(s.history, id).value.job.prevHash) <==> HistoryTip(s.history) == Tip(s.current)
  {
    LiveJobsShareNewestTip(steps, id);
  }

  /** What the refreshes of a run asked for, in the order they replaced the current job. */
  function Asked(steps: seq<Step>): seq<bool> {
    if steps == [] then []
    else
      var last := steps[|steps| - 1];
      Asked(steps[..|steps| - 1]) + if last.Replace? then [last.clean] else []
  }

  /** Appends in order: every job of the run is flagged exactly as its refresh found it. */
  lemma {:induction false} RunFlags(steps: seq<Step>)
    requires InOrder(steps)
    ensures Flagged(Run(steps).issued + Run(steps).pending, Asked(steps))
  {
    if steps != [] {
      var (init, last) := (steps[..|steps| - 1], steps[|steps| - 1]);
      RunFlags(init);
      RunsAreCoherent(init);
      StepFlags(Run(init), last, Asked(init));
    }
  }

  lemma StepFlags(s: Shared, step: Step, asked: seq<bool>)
    requires Coherent(s) && Flagged(s.issued + s.pending, asked) && (step.Append? ==> step.which == 0)
    ensures var q := Apply(s, step);
            Flagged(q.issued + q.pending, asked + if step.Replace? then [step.clean] else [])
  {
    match step {
      case Replace(job, clean) =>
        var e := MakeEntry(s.current, job, clean);
        FlaggedOneMore(s.issued + s.pending, asked, e, clean);
        assert s.issued + (s.pending + [e]) == s.issued + s.pending + [e];
      case Append(k) =>
        assert asked + [] == asked;
        if s.pending != [] {
          MoveFirst(s.issued, s.pending);
        }
    }
  }

  /** Over every run of overlapping refreshes that append in order, a job found is
      superseded exactly when a later appended refresh asked for a clean job or changed
      the tip. */
  lemma SupersededIff(steps: seq<Step>, id: string)
    requires InOrder(steps)
    requires Find(Run(steps).history, id).Some?
    ensures FoundRetired(Run(steps).issued, Asked(steps), Find(Run(steps).history, id).value)
  {
    var (s, asked) := (Run(steps), Asked(steps));
    var (log, r) := (s.issued, Find(s.history, id));
    RunFlags(steps);
    RunsAreCoherent(steps);
    FlaggedFront(log, s.pending, asked);
    FoundIsRetired(log, asked, id, r);
  }

  /** The job is among the last eight, and superseded exactly when it is retired. */
  ghost predicate FoundRetired(log: seq<Entry>, asked: seq<bool>, r: Lookup) {
    exists i: nat :: IsLookup(r, log, asked, i)
  }

  lemma FoundIsRetired(log: seq<Entry>, asked: seq<bool>, id: string, r: Option<Lookup>)
    requires |log| <= |asked| && Flagged(log, asked[..|log|]) && r == Find(LastEntries(log), id) && r.Some?
    ensures FoundRetired(log, asked, r.value)
  {
    var front := asked[..|log|];
    FlaggedTips(log, front);
    LookupInLog(log, id, r);
    var i: nat :| OldestLive(log, id, i) && r.value == Lookup(log[i].job, AnyClean(log[i + 1..]));
    LaterClean(log, front, i);
    SameRetired(log, asked, front, i);
    assert IsLookup(r.value, log, asked, i);
  }

  lemma SameRetired(log: seq<Entry>, asked: seq<bool>, front: seq<bool>, i: nat)
    requires |log| <= |asked| && front == asked[..|log|]
    ensures Retired(log, front, i) <==> Retired(log, asked, i)
  {
    if Retired(log, front, i) {
      var j :| i < j < |log| && Retires(log, front, j);
      assert Retires(log, asked, j);
    }
    if Retired(log, asked, i) {
      var j :| i < j < |log| && Retires(log, asked, j);
      assert Retires(log, front, j);
    }
  }

  lemma FlaggedFront(a: seq<Entry>, b: seq<Entry>, asked: seq<bool>)
    requires Flagged(a + b, asked)
    ensures |a| <= |asked| && Flagged(a, asked[..|a|])
  {
    forall i: nat | i < |a| ensures FlagRight(a, asked[..|a|], i) {
      assert FlagRight(a + b, asked, i);
      assert (a + b)[i] == a[i] && (i > 0 ==> (a + b)[i - 1] == a[i - 1]);
    }
  }

  /** With no refresh in flight the newest job in the history is the current one. */
  lemma QuietTip(steps: seq<Step>)
    requires InOrder(steps) && Run(steps).pending == []
    ensures HistoryTip(Run(steps).history) == Tip(Run(steps).current)
  {
    var s := Run(steps);
    RunsAreCoherent(steps);
    assert s.issued + s.pending == s.issued;
    if s.issued != [] {
      NewestIsLast(s.issued);
    }
  }

  /** Then no lookup vouches for a dead tip. */
  lemma NoDeadTip(steps: seq<Step>, id: string)
    requires InOrder(steps) && Run(steps).pending == []
    ensures var s := Run(steps); var r := Find(s.history, id);
            r.Some? && !r.value.superseded ==> Tip(s.current) == Some(r.value.job.prevHash)
  {
    InOrderFits(steps);
    LiveJobsShareNewestTip(steps, id);
    QuietTip(steps);
  }

  /** Between the two lock sections one does, even with refreshes one at a time: the
      current job has moved on and the history has not heard of it. */
  lemma GapServesDeadTip(a: Job, b: Job)
    requires a.id != b.id && a.prevHash != b.prevHash
    ensures var steps := [] + [Replace(a, true)] + [Append(0)] + [Replace(b, false)];
            && InOrder(steps) && |Run(steps).pending| == 1
            && Find(Run(steps).history, a.id) == Some(Lookup(a, false))
            && Tip(Run(steps).current) != Some(a.prevHash)
  {
    var s1 := [] + [Replace(a, true)];
    var s2 := s1 + [Append(0)];
    RunStep([], Replace(a, true));
    assert Run(s1) == Shared(Some(a), [], [Entry(a, true)], []);
    RunStep(s1, Append(0));
    assert Run(s2) == Shared(Some(a), [Entry(a, true)], [], [Entry(a, true)]);
    RunStep(s2, Replace(b, false));
    assert [Entry(a, true)][1..] == [];
  }

  lemma RunStep(steps: seq<Step>, step: Step)
    ensures Run(steps + [step]) == Apply(Run(steps), step)
  {
    assert (steps + [step])[..|steps|] == steps;
  }

  lemma CrossedRun(b: Job, c: Job)
    ensures Run([] + [Replace(b, true)] + [Replace(c, true)] + [Append(1)] + [Append(0)])
         == Shared(Some(c), [Entry(c, true), Entry(b, true)], [], [Entry(c, true), Entry(b, true)])
  {
    var (eb, ec) := (Entry(b, true), Entry(c, true));
    var s1 := [] + [Replace(b, true)];
    RunStep([], Replace(b, true));
    var s2 := s1 + [Replace(c, true)];
    RunStep(s1, Replace(c, true));
    assert Run(s2) == Shared(Some(c), [], [eb, ec], []);
    RunStep(s2, Append(1));
    assert [eb, ec][..1] + [eb, ec][2..] == [eb];
    assert Run(s2 + [Append(1)]) == Shared(Some(c), [ec], [eb], [ec]);
    RunStep(s2 + [Append(1)], Append(0));
    assert [eb][..0] + [eb][1..] == [];
  }

  /** Appending out of order does break it: two clean refreshes whose appends
      cross leave the first one's job looking live while the second is current. */
  lemma CrossedAppendsServeDeadTip(b: Job, c: Job)
    requires b.id != c.id && b.prevHash != c.prevHash
    ensures var s := Run([] + [Replace(b, true)] + [Replace(c, true)] + [Append(1)] + [Append(0)]);
            && s.pending == [] && Find(s.history, b.id) == Some(Lookup(b, false))
            && Tip(s.current) != Some(b.prevHash)
  {
    CrossedRun(b, c);
    var h := [Entry(c, true), Entry(b, true)];
    assert h[1..] == [Entry(b, true)];
    assert Position(h[1..], b.id) == Some(0);
    assert Position(h, b.id) == Some(1);
    assert h[2..] == [];
  }
}
