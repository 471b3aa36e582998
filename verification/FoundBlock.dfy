/** What happens to a block the pool finds (src/mining/engine.rs).

    The raw block is archived on one thread while another submits it; failed
    submissions go to a background retrier, confirmed ones are filed under
    submitted/, and the next boot replays whatever is still at the top level of the
    archive. Any of this can be cut short by a crash. Every thread hand-off is a
    step here and a run is any sequence of steps, so the invariant below covers all
    interleavings. */
module FoundBlock {

  /** Archive file name; one per block (height and hash). */
  type BlockId(==) = string

  const SUBMIT_INLINE_ATTEMPTS := 3

  /** A file exists as soon as it is created; only a finished write is whole. */
  datatype Content = Partial | Whole

  datatype Bucket = Submitted | Rejected

  datatype Disk = Disk(top: map<BlockId, Content>, submitted: map<BlockId, Content>, rejected: map<BlockId, Content>)

  /** `submitblock`: accepted (or already known), refused by consensus rules, an
      error object from the node, or no answer. */
  datatype Answer = Accepted | Refused | NodeError | Unreachable

  datatype Filing = Filing(id: BlockId, bucket: Bucket)

  /** Where the file a writer has open is now. */
  datatype Place = Top | In(bucket: Bucket)

  /** The tasks of the running process; a crash drops all of them. */
  datatype Tasks = Tasks(
    writers: set<BlockId>,             // archive write spawned, file not created yet
    writing: map<BlockId, Place>,      // file created, bytes still going out
    inline: map<BlockId, nat>,         // submit_found_block, attempts made so far
    crediting: set<BlockId>,           // the node has it, block_found is next
    retriers: set<BlockId>,            // background retrier that will credit
    replayers: map<BlockId, Content>,  // background retrier spawned by a replay
    listed: set<BlockId>,              // top-level files replay still has to try
    filings: set<Filing>,              // renames about to happen
    replayed: bool)

  /** What has happened so far. */
  datatype History = History(
    found: set<BlockId>,
    again: set<BlockId>,               // found more than once
    archived: set<BlockId>,            // the last find's archive write finished
    accepted: set<BlockId>,
    refusedOnReplay: set<BlockId>,
    credits: seq<BlockId>,
    boot: Boot)

  /** What has happened since the last crash. */
  datatype Boot = Boot(
    found: set<BlockId>,
    taken: set<BlockId>,               // accepted from a finder's own submission
    refused: set<BlockId>,             // refused there, since the last find
    gaveUp: set<BlockId>)              // the retrier gave up, since the last find

  const FRESH := Boot({}, {}, {}, {})

  datatype State = State(disk: Disk, tasks: Tasks, hist: History)

  const NO_TASKS := Tasks({}, map[], map[], {}, {}, map[], {}, {}, false)

  const START := State(Disk(map[], map[], map[]), NO_TASKS, History({}, {}, {}, {}, {}, [], FRESH))

  datatype Step =
    | Find(id: BlockId)
    | CreateFile(id: BlockId)
    | FinishWrite(id: BlockId)
    | WriteFails(id: BlockId)
    | InlineTry(id: BlockId, answer: Answer)
    | RetrierTry(id: BlockId, answer: Answer)
    | RetrierGivesUp(id: BlockId)
    | CreditBlock(id: BlockId)
    | FileBlock(filing: Filing, moved: bool)
    | ListArchive
    | ReplayTry(id: BlockId, answer: Answer)
    | ReplayerTry(id: BlockId, answer: Answer)
    | ReplayerGivesUp(id: BlockId)
    | Crash

  /** The open file keeps growing wherever it has been renamed to. */
  function Finish(d: Disk, id: BlockId, place: Place): Disk {
    match place
    case Top => d.(top := d.top[id := Whole])
    case In(Submitted) => d.(submitted := d.submitted[id := Whole])
    case In(Rejected) => d.(rejected := d.rejected[id := Whole])
  }

  /** `file_archived_block`: rename out of the top level, if it is still there, over
      whatever has that name in the bucket. */
  function Move(d: Disk, f: Filing): Disk {
    if f.id !in d.top then d
    else match f.bucket
      case Submitted => Disk(d.top - {f.id}, d.submitted[f.id := d.top[f.id]], d.rejected)
      case Rejected => Disk(d.top - {f.id}, d.submitted, d.rejected[f.id := d.top[f.id]])
  }

  /** A file renamed while its writer has it open. */
  function Follow(t: Tasks, d: Disk, f: Filing): Tasks {
    if f.id in d.top && f.id in t.writing then t.(writing := t.writing[f.id := In(f.bucket)]) else t
  }

  /** Some task is still concerned with the block. */
  predicate Busy(t: Tasks, id: BlockId) {
    || id in t.writers || id in t.writing || id in t.inline || id in t.crediting || id in t.retriers
    || id in t.replayers || id in t.listed || Filing(id, Submitted) in t.filings || Filing(id, Rejected) in t.filings
  }

  function NodeHas(s: State, id: BlockId): State {
    s.(tasks := s.tasks.(filings := s.tasks.filings + {Filing(id, Submitted)}),
       hist := s.hist.(accepted := s.hist.accepted + {id}))
  }

  /** The node has accepted what a finder's own task submitted: a credit is due. */
  function Taken(s: State, id: BlockId): State {
    var t, h := s.tasks, s.hist;
    NodeHas(s.(tasks := t.(crediting := t.crediting + {id}), hist := h.(boot := h.boot.(taken := h.boot.taken + {id}))), id)
  }

  function RefusedNow(s: State, id: BlockId): State {
    s.(hist := s.hist.(boot := s.hist.boot.(refused := s.hist.boot.refused + {id})))
  }

  /** The bytes a replay read; a cut-short file never decodes to the block, so the
      node does not accept it. */
  function Heard(content: Content, answer: Answer): Answer {
    if content == Partial && answer == Accepted then NodeError else answer
  }

  /** `submit_found_block`, one inline attempt. */
  function TryInline(s: State, id: BlockId, answer: Answer): State
    requires id in s.tasks.inline
  {
    var t := s.tasks;
    match answer
    case Accepted => Taken(s.(tasks := t.(inline := t.inline - {id})), id)
    case Refused => RefusedNow(s.(tasks := t.(inline := t.inline - {id})), id)
    case _ =>
      if t.inline[id] + 1 < SUBMIT_INLINE_ATTEMPTS then s.(tasks := t.(inline := t.inline[id := t.inline[id] + 1]))
      else s.(tasks := t.(inline := t.inline - {id}, retriers := t.retriers + {id}))
  }

  /** `spawn_resubmit_task` with a worker to credit, one attempt. */
  function TryRetrier(s: State, id: BlockId, answer: Answer): State {
    var t := s.tasks;
    match answer
    case Accepted => Taken(s.(tasks := t.(retriers := t.retriers - {id})), id)
    case Refused => RefusedNow(s.(tasks := t.(retriers := t.retriers - {id})), id)
    case _ => s
  }

  /** `replay_archived_blocks`, one listed file. */
  function TryReplay(s: State, id: BlockId, answer: Answer): State {
    var t, h := s.tasks.(listed := s.tasks.listed - {id}), s.hist;
    if id !in s.disk.top then s.(tasks := t)
    else match Heard(s.disk.top[id], answer)
      case Accepted => NodeHas(s.(tasks := t), id)
      case Unreachable => s.(tasks := t.(replayers := t.replayers[id := s.disk.top[id]]))
      case _ =>
        s.(tasks := t.(filings := t.filings + {Filing(id, Rejected)}),
           hist := h.(refusedOnReplay := h.refusedOnReplay + {id}))
  }

  /** `spawn_resubmit_task` for a replay, one attempt: no credit. */
  function TryReplayer(s: State, id: BlockId, answer: Answer): State
    requires id in s.tasks.replayers
  {
    var t := s.tasks;
    match Heard(t.replayers[id], answer)
    case Accepted => NodeHas(s.(tasks := t.(replayers := t.replayers - {id})), id)
    case Refused => s.(tasks := t.(replayers := t.replayers - {id}))
    case _ => s
  }

  /** `submit_found_block` starts: the archive write and the first attempt. A hash can
      be found again when a clean job on the same tip makes the pool forget it. */
  function FindOf(s: State, id: BlockId): State {
    var t, h := s.tasks, s.hist;
    s.(tasks := t.(writers := t.writers + {id}, inline := t.inline[id := 0]),
       hist := h.(found := h.found + {id}, archived := h.archived - {id},
                  again := if id in h.found then h.again + {id} else h.again,
                  boot := Boot(h.boot.found + {id}, h.boot.taken - {id}, h.boot.refused - {id}, h.boot.gaveUp - {id})))
  }

  /** `block_found`: a block already listed is not credited again. */
  function CreditOf(s: State, id: BlockId): State {
    var t, h := s.tasks, s.hist;
    s.(tasks := t.(crediting := t.crediting - {id}),
       hist := if id in h.credits then h else h.(credits := h.credits + [id]))
  }

  /** One step; a step whose task does not exist changes nothing. */
  function Apply(s: State, step: Step): State {
    var t, h := s.tasks, s.hist;
    match step
    case Find(id) => if Busy(t, id) then s else FindOf(s, id)
    case CreateFile(id) =>
      if id !in t.writers then s
      else s.(tasks := t.(writers := t.writers - {id}, writing := t.writing[id := Top]),
              disk := s.disk.(top := s.disk.top[id := Partial]))
    case FinishWrite(id) =>
      if id !in t.writing then s
      else State(Finish(s.disk, id, t.writing[id]), t.(writing := t.writing - {id}), h.(archived := h.archived + {id}))
    case WriteFails(id) => s.(tasks := t.(writers := t.writers - {id}, writing := t.writing - {id}))
    case InlineTry(id, answer) => if id in t.inline then TryInline(s, id, answer) else s
    case RetrierTry(id, answer) => if id in t.retriers then TryRetrier(s, id, answer) else s
    case RetrierGivesUp(id) =>
      if id !in t.retriers then s
      else s.(tasks := t.(retriers := t.retriers - {id}), hist := h.(boot := h.boot.(gaveUp := h.boot.gaveUp + {id})))
    case CreditBlock(id) => if id in t.crediting then CreditOf(s, id) else s
    case FileBlock(f, moved) =>
      if f !in t.filings then s
      else if moved then State(Move(s.disk, f), Follow(t, s.disk, f).(filings := t.filings - {f}), h)
      else s.(tasks := t.(filings := t.filings - {f}))
    case ListArchive =>
      if t.replayed then s else s.(tasks := t.(listed := s.disk.top.Keys, replayed := true))
    case ReplayTry(id, answer) => if id in t.listed then TryReplay(s, id, answer) else s
    case ReplayerTry(id, answer) => if id in t.replayers then TryReplayer(s, id, answer) else s
    case ReplayerGivesUp(id) => s.(tasks := t.(replayers := t.replayers - {id}))
    case Crash => s.(tasks := NO_TASKS, hist := h.(boot := FRESH))
  }

  function Run(steps: seq<Step>): State {
    if steps == [] then START else Apply(Run(steps[..|steps| - 1]), steps[|steps| - 1])
  }

  // ----- What every step keeps -----

  function Places(d: Disk, id: BlockId): nat {
    (if id in d.top then 1 else 0) + (if id in d.submitted then 1 else 0) + (if id in d.rejected then 1 else 0)
  }

  predicate WholeFile(d: Disk, id: BlockId) {
    || (id in d.top && d.top[id] == Whole)
    || (id in d.submitted && d.submitted[id] == Whole)
    || (id in d.rejected && d.rejected[id] == Whole)
  }

  /** The open file is where its writer has followed it. */
  predicate OpenAt(d: Disk, id: BlockId, place: Place) {
    match place
    case Top => id in d.top
    case In(Submitted) => id in d.submitted && id !in d.top
    case In(Rejected) => id in d.rejected && id !in d.top
  }

  /** Where a block's files are: nowhere before it is found, whole once the last write
      has finished, and in one place unless it was found again. */
  ghost predicate FilesOk(s: State, id: BlockId) {
    var (d, t, h) := (s.disk, s.tasks, s.hist);
    && (id !in h.found ==> id !in t.writers && id !in t.writing && Places(d, id) == 0 && id !in h.archived && id !in h.again)
    && (id in t.writers ==> id !in t.writing && id !in h.archived && (id !in h.again ==> Places(d, id) == 0))
    && (id in t.writing ==> id !in h.archived && OpenAt(d, id, t.writing[id]))
    && (id in h.archived ==> WholeFile(d, id) && (id in d.top ==> d.top[id] == Whole))
    && (id !in h.again ==> Places(d, id) <= 1)
  }

  /** A file leaves the top level only for a reason. */
  ghost predicate ReasonOk(s: State, id: BlockId) {
    && (id in s.disk.submitted || Filing(id, Submitted) in s.tasks.filings ==> id in s.hist.accepted)
    && (id in s.disk.rejected || Filing(id, Rejected) in s.tasks.filings ==> id in s.hist.refusedOnReplay)
  }

  /** A block has at most one task that may credit it, and only an accepted block is
      credited. */
  ghost predicate ClaimOk(s: State, id: BlockId) {
    var (t, h) := (s.tasks, s.hist);
    && !(id in t.inline && id in t.retriers) && !(id in t.inline && id in t.crediting) && !(id in t.retriers && id in t.crediting)
    && (id in t.crediting || id in h.credits ==> id in h.accepted)
  }

  ghost predicate Distinct(xs: seq<BlockId>) {
    forall i, j :: 0 <= i < j < |xs| ==> xs[i] != xs[j]
  }

  ghost predicate Inv(s: State) {
    Distinct(s.hist.credits) && forall id :: FilesOk(s, id) && ReasonOk(s, id) && ClaimOk(s, id)
  }

  lemma FindKeepsFiles(s: State, found: BlockId, id: BlockId)
    requires FilesOk(s, id) && !Busy(s.tasks, found)
    ensures FilesOk(FindOf(s, found), id)
  {
  }

  lemma WriteKeepsFiles(s: State, step: Step, id: BlockId)
    requires FilesOk(s, id) && (step.CreateFile? || step.FinishWrite? || step.WriteFails?)
    ensures FilesOk(Apply(s, step), id)
  {
  }

  lemma MoveKeepsFiles(s: State, f: Filing, moved: bool, id: BlockId)
    requires FilesOk(s, id)
    ensures FilesOk(Apply(s, FileBlock(f, moved)), id)
  {
  }

  /** A step that asks the node touches no file and no writer. */
  predicate Asks(step: Step) { AsksForSession(step) || AsksForArchive(step) }

  predicate AsksForSession(step: Step) { step.InlineTry? || step.RetrierTry? }

  predicate AsksForArchive(step: Step) { step.ReplayTry? || step.ReplayerTry? }

  ghost predicate SameFiles(s: State, q: State) {
    && q.disk == s.disk && q.tasks.writers == s.tasks.writers && q.tasks.writing == s.tasks.writing
    && q.hist.found == s.hist.found && q.hist.again == s.hist.again && q.hist.archived == s.hist.archived
  }

  lemma SessionAsks(s: State, step: Step)
    requires AsksForSession(step)
    ensures SameFiles(s, Apply(s, step))
  {
  }

  lemma ArchiveAsks(s: State, step: Step)
    requires AsksForArchive(step)
    ensures SameFiles(s, Apply(s, step))
  {
  }

  lemma AskingTouchesNoFile(s: State, step: Step)
    requires Asks(step)
    ensures SameFiles(s, Apply(s, step))
  {
    if AsksForSession(step) {
      SessionAsks(s, step);
    } else {
      ArchiveAsks(s, step);
    }
  }

  lemma RestKeepsFiles(s: State, step: Step, id: BlockId)
    requires FilesOk(s, id) && !Asks(step) && !step.Find? && !step.FileBlock?
    requires !step.CreateFile? && !step.FinishWrite? && !step.WriteFails?
    ensures FilesOk(Apply(s, step), id)
  {
  }

  lemma StepKeepsFiles(s: State, step: Step, id: BlockId)
    requires FilesOk(s, id)
    ensures FilesOk(Apply(s, step), id)
  {
    if step.Find? {
      if !Busy(s.tasks, step.id) {
        FindKeepsFiles(s, step.id, id);
      }
    } else if step.FileBlock? {
      MoveKeepsFiles(s, step.filing, step.moved, id);
    } else if step.CreateFile? || step.FinishWrite? || step.WriteFails? {
      WriteKeepsFiles(s, step, id);
    } else if Asks(step) {
      AskingTouchesNoFile(s, step);
    } else {
      RestKeepsFiles(s, step, id);
    }
  }

  lemma SessionKeepsReason(s: State, step: Step, id: BlockId)
    requires ReasonOk(s, id) && AsksForSession(step)
    ensures ReasonOk(Apply(s, step), id)
  {
  }

  lemma ReplayKeepsReason(s: State, asked: BlockId, answer: Answer, id: BlockId)
    requires ReasonOk(s, id)
    ensures ReasonOk(TryReplay(s, asked, answer), id)
  {
  }

  lemma ArchiveKeepsReason(s: State, step: Step, id: BlockId)
    requires ReasonOk(s, id) && AsksForArchive(step)
    ensures ReasonOk(Apply(s, step), id)
  {
    if step.ReplayTry? {
      ReplayKeepsReason(s, step.id, step.answer, id);
    }
  }

  lemma StepKeepsReason(s: State, step: Step, id: BlockId)
    requires FilesOk(s, id) && ReasonOk(s, id)
    ensures ReasonOk(Apply(s, step), id)
  {
    if AsksForSession(step) {
      SessionKeepsReason(s, step, id);
    } else if AsksForArchive(step) {
      ArchiveKeepsReason(s, step, id);
    }
  }

  lemma SessionKeepsClaim(s: State, step: Step, id: BlockId)
    requires ClaimOk(s, id) && AsksForSession(step)
    ensures ClaimOk(Apply(s, step), id)
  {
  }

  lemma ArchiveKeepsClaim(s: State, step: Step, id: BlockId)
    requires ClaimOk(s, id) && AsksForArchive(step)
    ensures ClaimOk(Apply(s, step), id)
  {
  }

  lemma StepKeepsClaim(s: State, step: Step, id: BlockId)
    requires ClaimOk(s, id)
    ensures ClaimOk(Apply(s, step), id)
  {
    if AsksForSession(step) {
      SessionKeepsClaim(s, step, id);
    } else if AsksForArchive(step) {
      ArchiveKeepsClaim(s, step, id);
    }
  }

  lemma StepKeepsDistinct(s: State, step: Step)
    requires Distinct(s.hist.credits)
    ensures Distinct(Apply(s, step).hist.credits)
  {
  }

  lemma {:induction false} InvHolds(steps: seq<Step>)
    ensures Inv(Run(steps))
  {
    if steps != [] {
      var s, step := Run(steps[..|steps| - 1]), steps[|steps| - 1];
      InvHolds(steps[..|steps| - 1]);
      StepKeepsDistinct(s, step);
      forall id ensures FilesOk(Apply(s, step), id) && ReasonOk(Apply(s, step), id) && ClaimOk(Apply(s, step), id) {
        StepKeepsFiles(s, step, id);
        StepKeepsReason(s, step, id);
        StepKeepsClaim(s, step, id);
      }
    }
  }

  // ----- The guarantees -----

  /** In every run: an archived block is there and whole, in exactly one directory
      unless its hash was found again; under submitted/ only if the node accepted it,
      under rejected/ only if a replay was refused; and until one of the two happens it
      is where the next boot lists it. */
  lemma ArchivedBlocksAreKept(steps: seq<Step>, id: BlockId)
    ensures var s := Run(steps);
            && (id in s.disk.submitted ==> id in s.hist.accepted)
            && (id in s.disk.rejected ==> id in s.hist.refusedOnReplay)
            && (Places(s.disk, id) > 1 ==> id in s.hist.again)
            && (id in s.hist.archived ==>
                  && Places(s.disk, id) >= 1 && WholeFile(s.disk, id)
                  && (id !in s.hist.accepted && id !in s.hist.refusedOnReplay ==> id in s.disk.top && s.disk.top[id] == Whole))
  {
    InvHolds(steps);
    assert FilesOk(Run(steps), id) && ReasonOk(Run(steps), id);
  }

  function Credits(xs: seq<BlockId>, id: BlockId): nat {
    if xs == [] then 0 else (if xs[0] == id then 1 else 0) + Credits(xs[1..], id)
  }

  lemma {:induction false} DistinctCount(xs: seq<BlockId>, id: BlockId)
    requires Distinct(xs)
    ensures Credits(xs, id) == if id in xs then 1 else 0
  {
    if xs != [] {
      assert forall i, j :: 0 <= i < j < |xs[1..]| ==> xs[1..][i] == xs[i + 1] && xs[1..][j] == xs[j + 1];
      DistinctCount(xs[1..], id);
      assert id in xs <==> id == xs[0] || id in xs[1..];
      assert id == xs[0] ==> id !in xs[1..];
    }
  }

  /** In every run a block is credited at most once, however often it is found, and
      only after the node accepted it. */
  lemma CreditedAtMostOnce(steps: seq<Step>, id: BlockId)
    ensures Credits(Run(steps).hist.credits, id) <= 1
    ensures Credits(Run(steps).hist.credits, id) == 1 ==> id in Run(steps).hist.accepted
  {
    InvHolds(steps);
    assert ClaimOk(Run(steps), id);
    DistinctCount(Run(steps).hist.credits, id);
  }

  lemma RunStep(steps: seq<Step>, step: Step)
    ensures Run(steps + [step]) == Apply(Run(steps), step)
  {
    assert (steps + [step])[..|steps|] == steps;
  }

  lemma StepKeepsFiled(s: State, step: Step, id: BlockId)
    requires FilesOk(s, id)
    ensures id in s.disk.submitted ==> id in Apply(s, step).disk.submitted
    ensures id in s.disk.rejected ==> id in Apply(s, step).disk.rejected
  {
  }

  /** A block filed under submitted/ or rejected/ stays there, and is listed for replay
      again only if its hash is found again. */
  lemma {:induction false} FiledStaysFiled(steps: seq<Step>, more: seq<Step>, id: BlockId)
    requires id in Run(steps).disk.submitted || id in Run(steps).disk.rejected
    ensures id in Run(steps).disk.submitted ==> id in Run(steps + more).disk.submitted
    ensures id in Run(steps).disk.rejected ==> id in Run(steps + more).disk.rejected
    ensures id in Run(steps + more).disk.top ==> id in Run(steps + more).hist.again
    decreases |more|
  {
    InvHolds(steps + more);
    assert FilesOk(Run(steps + more), id);
    if more == [] {
      assert steps + more == steps;
    } else {
      var fewer, last := more[..|more| - 1], more[|more| - 1];
      FiledStaysFiled(steps, fewer, id);
      InvHolds(steps + fewer);
      RunStep(steps + fewer, last);
      assert steps + fewer + [last] == steps + more;
      assert FilesOk(Run(steps + fewer), id);
      StepKeepsFiled(Run(steps + fewer), last, id);
    }
  }

  lemma StepKeepsArchived(s: State, step: Step, id: BlockId)
    requires id in s.hist.archived && step != Find(id)
    ensures id in Apply(s, step).hist.archived
  {
    if Asks(step) {
      AskingTouchesNoFile(s, step);
    }
  }

  /** An archived block stays archived until its hash is found again, whether or not it
      was found again before. */
  lemma {:induction false} ArchivedStays(steps: seq<Step>, more: seq<Step>, id: BlockId)
    requires id in Run(steps).hist.archived && forall i :: 0 <= i < |more| ==> more[i] != Find(id)
    ensures id in Run(steps + more).hist.archived
    decreases |more|
  {
    if more == [] {
      assert steps + more == steps;
    } else {
      var fewer, last := more[..|more| - 1], more[|more| - 1];
      ArchivedStays(steps, fewer, id);
      RunStep(steps + fewer, last);
      assert steps + fewer + [last] == steps + more;
      StepKeepsArchived(Run(steps + fewer), last, id);
    }
  }

  /** Neither accepted nor refused on replay. */
  predicate Unsettled(s: State, id: BlockId) { id !in s.hist.accepted && id !in s.hist.refusedOnReplay }

  /** A whole, unsettled block loses its last whole file exactly when a writer creates its
      file anew. */
  lemma WholeLostIff(s: State, step: Step, id: BlockId)
    requires FilesOk(s, id) && ReasonOk(s, id) && WholeFile(s.disk, id) && Unsettled(s, id)
    ensures !WholeFile(Apply(s, step).disk, id) <==> step == CreateFile(id) && id in s.tasks.writers
  {
    if Asks(step) {
      AskingTouchesNoFile(s, step);
    }
  }

  lemma StepKeepsSettled(s: State, step: Step, id: BlockId)
    requires !Unsettled(s, id)
    ensures !Unsettled(Apply(s, step), id)
  {
  }

  /** Over every continuation in which it stays unsettled and its file is not created
      anew, a whole block stays whole. */
  lemma {:induction false} WholeStays(steps: seq<Step>, more: seq<Step>, id: BlockId)
    requires WholeFile(Run(steps).disk, id) && Unsettled(Run(steps + more), id)
    requires forall i :: 0 <= i < |more| ==> more[i] != CreateFile(id)
    ensures WholeFile(Run(steps + more).disk, id)
    decreases |more|
  {
    if more == [] {
      assert steps + more == steps;
    } else {
      var fewer, last := more[..|more| - 1], more[|more| - 1];
      var s := Run(steps + fewer);
      RunStep(steps + fewer, last);
      assert steps + fewer + [last] == steps + more;
      if !Unsettled(s, id) {
        StepKeepsSettled(s, last, id);
      }
      WholeStays(steps, fewer, id);
      InvHolds(steps + fewer);
      assert FilesOk(s, id) && ReasonOk(s, id);
      WholeLostIff(s, last, id);
    }
  }

  /** A block found and archived just before the pool goes down. */
  function FoundOnce(id: BlockId): seq<Step> {
    [] + [Find(id)] + [CreateFile(id)] + [FinishWrite(id)] + [Crash]
  }

  lemma FoundOnceState(id: BlockId)
    ensures Run(FoundOnce(id)) == State(Disk(map[id := Whole], map[], map[]), NO_TASKS, History({id}, {}, {id}, {}, {}, [], FRESH))
  {
    var a := [] + [Find(id)];
    var b := a + [CreateFile(id)];
    var c := b + [FinishWrite(id)];
    RunStep([], Find(id));
    RunStep(a, CreateFile(id));
    RunStep(b, FinishWrite(id));
    RunStep(c, Crash);
  }

  /** A second find writes the file anew, over the first one if that is still at the top
      level: a crash in the middle of that write loses the block. */
  lemma SecondFindTruncates(id: BlockId)
    ensures id in Run(FoundOnce(id)).hist.archived
    ensures var s := Run(FoundOnce(id) + [Find(id)] + [CreateFile(id)] + [Crash]);
            !WholeFile(s.disk, id) && id !in s.hist.accepted
  {
    FoundOnceState(id);
    var d := FoundOnce(id) + [Find(id)];
    var e := d + [CreateFile(id)];
    RunStep(FoundOnce(id), Find(id));
    RunStep(d, CreateFile(id));
    RunStep(e, Crash);
  }

  lemma BootDelivers(s: State, id: BlockId)
    requires id in s.disk.top && s.disk.top[id] == Whole
    ensures var b := Apply(Apply(s, Crash), ListArchive);
            var e := Apply(Apply(b, ReplayTry(id, Accepted)), FileBlock(Filing(id, Submitted), true));
            id in e.hist.accepted && id in e.disk.submitted && e.disk.submitted[id] == Whole
  {
  }

  /** From any point of any run, a crash and a boot whose node answers deliver every
      archived block that was neither accepted nor refused on replay. */
  lemma NextBootDelivers(steps: seq<Step>, id: BlockId)
    requires id in Run(steps).hist.archived
    requires id !in Run(steps).hist.accepted && id !in Run(steps).hist.refusedOnReplay
    ensures var s := Run(steps + [Crash] + [ListArchive] + [ReplayTry(id, Accepted)] + [FileBlock(Filing(id, Submitted), true)]);
            id in s.hist.accepted && id in s.disk.submitted && s.disk.submitted[id] == Whole
  {
    ArchivedBlocksAreKept(steps, id);
    BootDelivers(Run(steps), id);
    var a := steps + [Crash];
    var b := a + [ListArchive];
    var c := b + [ReplayTry(id, Accepted)];
    RunStep(steps, Crash);
    RunStep(a, ListArchive);
    RunStep(b, ReplayTry(id, Accepted));
    RunStep(c, FileBlock(Filing(id, Submitted), true));
  }

  /** A replay the node refuses, or answers with an error, sets the block aside whole. */
  lemma NextBootSetsAside(steps: seq<Step>, id: BlockId, answer: Answer)
    requires id in Run(steps).hist.archived && Unsettled(Run(steps), id) && (answer == Refused || answer == NodeError)
    ensures var b := Run(steps + [Crash] + [ListArchive]);
            var s := Apply(Apply(b, ReplayTry(id, answer)), FileBlock(Filing(id, Rejected), true));
            id !in s.disk.top && id in s.disk.rejected && s.disk.rejected[id] == Whole && id !in s.hist.accepted
  {
    BootLists(steps, id);
    ReplaySetsAside(Run(steps + [Crash] + [ListArchive]), id, answer);
  }

  lemma BootLists(steps: seq<Step>, id: BlockId)
    requires id in Run(steps).hist.archived && Unsettled(Run(steps), id)
    ensures var b := Run(steps + [Crash] + [ListArchive]);
            id in b.tasks.listed && id in b.disk.top && b.disk.top[id] == Whole && b.hist.accepted == Run(steps).hist.accepted
  {
    ArchivedBlocksAreKept(steps, id);
    RunStep(steps, Crash);
    RunStep(steps + [Crash], ListArchive);
  }

  lemma ReplaySetsAside(s: State, id: BlockId, answer: Answer)
    requires id in s.tasks.listed && id in s.disk.top && s.disk.top[id] == Whole
    requires answer == Refused || answer == NodeError
    ensures var q := Apply(Apply(s, ReplayTry(id, answer)), FileBlock(Filing(id, Rejected), true));
            && id !in q.disk.top && id in q.disk.rejected && q.disk.rejected[id] == Whole
            && q.hist.accepted == s.hist.accepted
  {
  }

  /** The same when the node does not answer the replay and the background retrier it
      spawns gets through. */
  lemma NextBootRetries(steps: seq<Step>, id: BlockId)
    requires id in Run(steps).hist.archived && Unsettled(Run(steps), id)
    ensures var a := Run(steps + [Crash] + [ListArchive] + [ReplayTry(id, Unreachable)]);
            var s := Apply(Apply(a, ReplayerTry(id, Accepted)), FileBlock(Filing(id, Submitted), true));
            id in s.hist.accepted && id in s.disk.submitted && s.disk.submitted[id] == Whole
  {
    var b := steps + [Crash] + [ListArchive];
    BootLists(steps, id);
    RunStep(b, ReplayTry(id, Unreachable));
    RetryDelivers(Run(b), id);
  }

  lemma RetryDelivers(s: State, id: BlockId)
    requires id in s.tasks.listed && id in s.disk.top && s.disk.top[id] == Whole
    ensures var a := Apply(s, ReplayTry(id, Unreachable));
            var q := Apply(Apply(a, ReplayerTry(id, Accepted)), FileBlock(Filing(id, Submitted), true));
            id in q.hist.accepted && id in q.disk.submitted && q.disk.submitted[id] == Whole
  {
  }

  // ----- Without a reboot -----

  /** A block found since the last crash is being submitted, is about to be credited, is
      credited, was refused, or its retrier gave up. */
  ghost predicate Pursued(s: State, id: BlockId) {
    && (id in s.hist.boot.found ==>
          || id in s.tasks.inline || id in s.tasks.retriers || id in s.tasks.crediting || id in s.hist.credits
          || id in s.hist.boot.refused || id in s.hist.boot.gaveUp)
    && (id in s.hist.boot.taken ==> id in s.tasks.crediting || id in s.hist.credits)
  }

  lemma AskingPursues(s: State, step: Step, id: BlockId)
    requires Pursued(s, id) && AsksForSession(step)
    ensures Pursued(Apply(s, step), id)
  {
  }

  lemma StepPursues(s: State, step: Step, id: BlockId)
    requires Pursued(s, id)
    ensures Pursued(Apply(s, step), id)
  {
    if AsksForSession(step) {
      AskingPursues(s, step, id);
    }
  }

  lemma {:induction false} RunPursues(steps: seq<Step>, id: BlockId)
    ensures Pursued(Run(steps), id)
  {
    if steps != [] {
      RunPursues(steps[..|steps| - 1], id);
      StepPursues(Run(steps[..|steps| - 1]), steps[|steps| - 1], id);
    }
  }

  /** In every run a block found since the last crash that the node has neither accepted
      nor refused has a task submitting it, until its retrier gives up. */
  lemma StillSubmitted(steps: seq<Step>, id: BlockId)
    requires var s := Run(steps);
             && id in s.hist.boot.found && id !in s.hist.accepted
             && id !in s.hist.boot.refused && id !in s.hist.boot.gaveUp
    ensures id in Run(steps).tasks.inline || id in Run(steps).tasks.retriers
  {
    RunPursues(steps, id);
    InvHolds(steps);
    assert ClaimOk(Run(steps), id);
  }

  /** One accepting answer to that task and the credit that follows are all it takes. */
  lemma TaskDelivers(s: State, id: BlockId)
    requires id in s.tasks.inline || id in s.tasks.retriers
    ensures var step := if id in s.tasks.inline then InlineTry(id, Accepted) else RetrierTry(id, Accepted);
            var q := Apply(Apply(s, step), CreditBlock(id));
            id in q.hist.accepted && id in q.hist.credits
  {
  }

  /** And once archived it is filed, so that the next boot does not submit it again. */
  lemma TaskFiles(s: State, id: BlockId)
    requires (id in s.tasks.inline || id in s.tasks.retriers) && id in s.disk.top && s.disk.top[id] == Whole
    ensures var step := if id in s.tasks.inline then InlineTry(id, Accepted) else RetrierTry(id, Accepted);
            var q := Apply(Apply(s, step), FileBlock(Filing(id, Submitted), true));
            id !in q.disk.top && id in q.disk.submitted && q.disk.submitted[id] == Whole
  {
  }

  /** What the node accepted from a finder's own submission is credited or about to be. */
  lemma AcceptedIsCredited(steps: seq<Step>, id: BlockId)
    requires id in Run(steps).hist.boot.taken
    ensures id in Run(steps).hist.credits || id in Run(steps).tasks.crediting
    ensures id in Run(steps).hist.credits || id in Run(steps + [CreditBlock(id)]).hist.credits
  {
    RunPursues(steps, id);
    RunStep(steps, CreditBlock(id));
  }

  /** And accepted any other way it is, unless it still has a task, was refused there, or
      the retrier gave up. */
  lemma AcceptedOrPursued(steps: seq<Step>, id: BlockId)
    requires id in Run(steps).hist.boot.found && id !in Run(steps).tasks.inline && id !in Run(steps).tasks.retriers
    requires id !in Run(steps).hist.boot.refused && id !in Run(steps).hist.boot.gaveUp
    ensures id in Run(steps).hist.accepted && (id in Run(steps).hist.credits || id in Run(steps).tasks.crediting)
  {
    RunPursues(steps, id);
    InvHolds(steps);
    assert ClaimOk(Run(steps), id);
  }

  /** After a find that is archived while the boot's replay is still to list it, and three
      attempts without an answer. */
  function LateReplay(id: BlockId): State {
    var s := Apply(Apply(Apply(Apply(START, Find(id)), CreateFile(id)), FinishWrite(id)), ListArchive);
    Apply(Apply(Apply(s, InlineTry(id, Unreachable)), InlineTry(id, Unreachable)), InlineTry(id, Unreachable))
  }

  lemma LateReplayState(id: BlockId)
    ensures var s := LateReplay(id);
            && s.disk.top == map[id := Whole] && s.tasks.listed == {id} && s.tasks.retriers == {id} && s.tasks.inline == map[]
            && s.tasks.crediting == {} && s.hist.credits == [] && s.hist.boot.found == {id}
  {
    var s := Apply(Apply(Apply(Apply(START, Find(id)), CreateFile(id)), FinishWrite(id)), ListArchive);
    assert s.tasks.inline == map[id := 0] && s.tasks.listed == {id} && s.disk.top == map[id := Whole];
    var a := Apply(s, InlineTry(id, Unreachable));
    assert a == s.(tasks := s.tasks.(inline := map[id := 1]));
    var b := Apply(a, InlineTry(id, Unreachable));
    assert b == s.(tasks := s.tasks.(inline := map[id := 2]));
    var c := Apply(b, InlineTry(id, Unreachable));
    assert c.tasks.inline == map[];
  }

  /** The retrier giving up is one way out of the credit: if the replay then delivers the
      block, the node has it and nobody is credited. */
  lemma ReplayDoesNotCredit(id: BlockId)
    ensures var s := Apply(Apply(LateReplay(id), RetrierGivesUp(id)), ReplayTry(id, Accepted));
            && id in s.hist.boot.found && id in s.hist.accepted && id in s.hist.boot.gaveUp
            && id !in s.hist.credits && id !in s.tasks.crediting && id !in s.tasks.inline && id !in s.tasks.retriers
  {
    LateReplayState(id);
    ReplayAfterGivingUp(LateReplay(id), id);
  }

  lemma ReplayAfterGivingUp(s: State, id: BlockId)
    requires id in s.disk.top && s.disk.top[id] == Whole && id in s.tasks.listed && id in s.tasks.retriers
    ensures var q := Apply(Apply(s, RetrierGivesUp(id)), ReplayTry(id, Accepted));
            && id in q.hist.accepted && id in q.hist.boot.gaveUp && q.hist.boot.found == s.hist.boot.found
            && q.hist.credits == s.hist.credits && q.tasks.crediting == s.tasks.crediting
            && q.tasks.inline == s.tasks.inline && id !in q.tasks.retriers
  {
  }

  /** No answer or an error object: the attempt did not settle the block. */
  predicate Inconclusive(a: Answer) { a == NodeError || a == Unreachable }

  /** Three inconclusive attempts hand the block to the background retrier, not fewer, and
      the retrier goes on through any number of them. */
  lemma HandedToRetrier(s: State, id: BlockId, a: Answer, b: Answer, c: Answer, d: Answer)
    requires id in s.tasks.inline && s.tasks.inline[id] == 0
    requires Inconclusive(a) && Inconclusive(b) && Inconclusive(c) && Inconclusive(d)
    ensures var two := Apply(Apply(s, InlineTry(id, a)), InlineTry(id, b));
            var three := Apply(two, InlineTry(id, c));
            && id in two.tasks.inline && id !in three.tasks.inline && id in three.tasks.retriers
            && id in Apply(three, RetrierTry(id, d)).tasks.retriers
  {
    var one := Apply(s, InlineTry(id, a));
    assert id in one.tasks.inline && one.tasks.inline[id] == 1;
    var two := Apply(one, InlineTry(id, b));
    assert id in two.tasks.inline && two.tasks.inline[id] == 2;
  }

  /** A find starts both the archive write and the first attempt. */
  lemma FindStarts(s: State, id: BlockId)
    requires !Busy(s.tasks, id)
    ensures var q := Apply(s, Find(id));
            id in q.tasks.writers && id in q.tasks.inline && q.tasks.inline[id] == 0 && id in q.hist.boot.found
  {
  }
}
