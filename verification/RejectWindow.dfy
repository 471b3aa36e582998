/** A worker's accepted shares and rejects over the last hour (src/stats.rs).

    Counts live in a ring of sixty one-minute buckets and the device faults in a
    bounded queue. Both are compared with the full list of events, which the class
    keeps as ghost state. */
module RejectWindow {
  import opened Wrappers

  const REJECT_WINDOW_MINUTES: nat := 60
  const MAX_RECENT_OTHER_REJECTS: nat := 256

  /** Shares, rejects that are a matter of timing, and device faults. */
  datatype Kind = Accepted | Stale | Other(reason: string)

  datatype Event = Event(at: nat, kind: Kind)

  datatype MinuteCounts = MinuteCounts(minute: nat, accepted: nat, stale: nat)

  datatype Fault = Fault(at: nat, reason: string)

  function MinuteOf(at: nat): nat { at / 60 }

  function Slot(minute: nat): nat { minute % REJECT_WINDOW_MINUTES }

  ghost predicate NoneAfter(log: seq<Event>, now: nat) {
    forall i :: 0 <= i < |log| ==> log[i].at <= now
  }

  // ----- Counting over the full log -----

  predicate Hits(e: Event, kind: Kind, minute: int) { e.kind == kind && MinuteOf(e.at) == minute }

  /** Events of a kind in one minute. */
  function Count(log: seq<Event>, kind: Kind, minute: int): nat {
    if log == [] then 0
    else Count(log[..|log| - 1], kind, minute) + if Hits(log[|log| - 1], kind, minute) then 1 else 0
  }

  /** Events of a kind in the sixty whole minutes ending with `nowMinute`. */
  function WindowCount(log: seq<Event>, kind: Kind, nowMinute: nat): nat {
    if log == [] then 0
    else
      var e := log[|log| - 1];
      WindowCount(log[..|log| - 1], kind, nowMinute)
      + if e.kind == kind && nowMinute < e.at / 60 + 60 && e.at / 60 <= nowMinute then 1 else 0
  }

  function Sat(n: nat): nat { if n < U32_MAX then n else U32_MAX }

  /** The minute of the window that belongs in a slot. */
  function MinuteAt(nowMinute: nat, slot: nat): int { nowMinute - (nowMinute - slot) % REJECT_WINDOW_MINUTES }

  lemma MinuteAtIs(nowMinute: nat, slot: nat, m: nat)
    requires slot < REJECT_WINDOW_MINUTES
    ensures nowMinute < m + REJECT_WINDOW_MINUTES && m <= nowMinute && Slot(m) == slot <==> m == MinuteAt(nowMinute, slot)
  {
  }

  function SumTo(log: seq<Event>, kind: Kind, nowMinute: nat, slots: nat): nat {
    if slots == 0 then 0
    else SumTo(log, kind, nowMinute, slots - 1) + Count(log, kind, MinuteAt(nowMinute, slots - 1))
  }

  function SatSumTo(log: seq<Event>, kind: Kind, nowMinute: nat, slots: nat): nat {
    if slots == 0 then 0
    else SatSumTo(log, kind, nowMinute, slots - 1) + Sat(Count(log, kind, MinuteAt(nowMinute, slots - 1)))
  }

  lemma {:induction false} SumOfNone(kind: Kind, nowMinute: nat, slots: nat)
    ensures SumTo([], kind, nowMinute, slots) == 0
  {
    if slots > 0 {
      SumOfNone(kind, nowMinute, slots - 1);
    }
  }

  /** One more event adds one to at most one slot's sum. */
  lemma {:induction false} SumOfOneMore(log: seq<Event>, kind: Kind, nowMinute: nat, slots: nat)
    requires log != [] && slots <= REJECT_WINDOW_MINUTES
    ensures var e := log[|log| - 1];
            var m := MinuteOf(e.at);
            SumTo(log, kind, nowMinute, slots) == SumTo(log[..|log| - 1], kind, nowMinute, slots)
              + if e.kind == kind && Slot(m) < slots && MinuteAt(nowMinute, Slot(m)) == m then 1 else 0
  {
    if slots > 0 {
      var m := MinuteOf(log[|log| - 1].at);
      SumOfOneMore(log, kind, nowMinute, slots - 1);
      MinuteAtIs(nowMinute, slots - 1, m);
    }
  }

  /** The slots' minutes partition the window. */
  lemma {:induction false} SlotsCoverWindow(log: seq<Event>, kind: Kind, nowMinute: nat)
    ensures SumTo(log, kind, nowMinute, REJECT_WINDOW_MINUTES) == WindowCount(log, kind, nowMinute)
  {
    if log == [] {
      SumOfNone(kind, nowMinute, REJECT_WINDOW_MINUTES);
    } else {
      var m := MinuteOf(log[|log| - 1].at);
      SlotsCoverWindow(log[..|log| - 1], kind, nowMinute);
      SumOfOneMore(log, kind, nowMinute, REJECT_WINDOW_MINUTES);
      MinuteAtIs(nowMinute, Slot(m), m);
    }
  }

  ghost predicate Unsaturated(log: seq<Event>, kind: Kind) {
    forall m: int :: Count(log, kind, m) <= U32_MAX
  }

  lemma {:induction false} SatSumBelow(log: seq<Event>, kind: Kind, nowMinute: nat, slots: nat)
    ensures SatSumTo(log, kind, nowMinute, slots) <= SumTo(log, kind, nowMinute, slots)
    ensures Unsaturated(log, kind) ==> SatSumTo(log, kind, nowMinute, slots) == SumTo(log, kind, nowMinute, slots)
  {
    if slots > 0 {
      SatSumBelow(log, kind, nowMinute, slots - 1);
    }
  }

  // ----- The ring -----

  function Of(b: MinuteCounts, kind: Kind): nat {
    match kind case Accepted => b.accepted case Stale => b.stale case Other(_) => 0
  }

  /** `bucket`, then one more in it. */
  function Bumped(b: MinuteCounts, minute: nat, kind: Kind): MinuteCounts {
    var b := if b.minute != minute then MinuteCounts(minute, 0, 0) else b;
    match kind
    case Accepted => b.(accepted := Sat(b.accepted + 1))
    case Stale => b.(stale := Sat(b.stale + 1))
    case Other(_) => b
  }

  /** A slot in use counts its own minute; an untouched one is all zero. */
  ghost predicate SlotOk(b: MinuteCounts, slot: nat, log: seq<Event>) {
    if Slot(b.minute) == slot then
      b.accepted == Sat(Count(log, Accepted, b.minute)) && b.stale == Sat(Count(log, Stale, b.minute))
    else b == MinuteCounts(0, 0, 0)
  }

  /** No later minute has pushed an event out of the slot than the slot shows. */
  ghost predicate SlotLatest(b: MinuteCounts, slot: nat, log: seq<Event>) {
    forall i :: 0 <= i < |log| && !log[i].kind.Other? && Slot(MinuteOf(log[i].at)) == slot ==>
      Slot(b.minute) == slot && MinuteOf(log[i].at) <= b.minute
  }

  ghost predicate SlotPast(b: MinuteCounts, now: nat) { b.minute <= MinuteOf(now) }

  lemma {:induction false} CountZero(log: seq<Event>, kind: Kind, minute: int)
    requires forall i :: 0 <= i < |log| ==> !Hits(log[i], kind, minute)
    ensures Count(log, kind, minute) == 0
  {
    if log != [] {
      CountZero(log[..|log| - 1], kind, minute);
    }
  }

  lemma CountOneMore(log: seq<Event>, e: Event, kind: Kind, minute: int)
    ensures Count(log + [e], kind, minute) == Count(log, kind, minute) + if Hits(e, kind, minute) then 1 else 0
  {
    assert (log + [e])[..|log|] == log;
  }

  /** A minute of the window has the count its slot shows, or none. */
  lemma SlotContribution(b: MinuteCounts, slot: nat, log: seq<Event>, kind: Kind, now: nat)
    requires SlotOk(b, slot, log) && SlotLatest(b, slot, log) && NoneAfter(log, now) && SlotPast(b, now)
    requires slot < REJECT_WINDOW_MINUTES && !kind.Other?
    ensures var nowMinute := MinuteOf(now);
            (if b.minute + REJECT_WINDOW_MINUTES > nowMinute && b.minute <= nowMinute then Of(b, kind) else 0)
            == Sat(Count(log, kind, MinuteAt(nowMinute, slot)))
  {
    var nowMinute := MinuteOf(now);
    var m := MinuteAt(nowMinute, slot);
    if b.minute != m || Slot(b.minute) != slot {
      forall i | 0 <= i < |log| ensures !Hits(log[i], kind, m) {
        MinuteAtIs(nowMinute, slot, MinuteOf(log[i].at));
        MinuteAtIs(nowMinute, slot, b.minute);
      }
      CountZero(log, kind, m);
    }
    MinuteAtIs(nowMinute, slot, b.minute);
  }

  lemma BumpOk(b: MinuteCounts, log: seq<Event>, e: Event)
    requires SlotOk(b, Slot(MinuteOf(e.at)), log) && SlotLatest(b, Slot(MinuteOf(e.at)), log) && !e.kind.Other?
    requires SlotPast(b, e.at)
    ensures SlotOk(Bumped(b, MinuteOf(e.at), e.kind), Slot(MinuteOf(e.at)), log + [e])
  {
    var m := MinuteOf(e.at);
    CountOneMore(log, e, Accepted, m);
    CountOneMore(log, e, Stale, m);
    if b.minute != m || Slot(b.minute) != Slot(m) {
      FreshMinute(b, log, m, Accepted);
      FreshMinute(b, log, m, Stale);
    }
  }

  /** A minute the slot has not reached yet has no events. */
  lemma FreshMinute(b: MinuteCounts, log: seq<Event>, m: nat, kind: Kind)
    requires SlotLatest(b, Slot(m), log) && (b.minute < m || Slot(b.minute) != Slot(m)) && !kind.Other?
    ensures Count(log, kind, m) == 0
  {
    forall i | 0 <= i < |log| ensures !Hits(log[i], kind, m) {
    }
    CountZero(log, kind, m);
  }

  lemma BumpLatest(b: MinuteCounts, log: seq<Event>, e: Event)
    requires SlotLatest(b, Slot(MinuteOf(e.at)), log) && SlotPast(b, e.at)
    ensures SlotLatest(Bumped(b, MinuteOf(e.at), e.kind), Slot(MinuteOf(e.at)), log + [e])
  {
  }

  /** An event of another slot, or a fault, leaves a slot correct. */
  lemma SlotUnmoved(b: MinuteCounts, slot: nat, log: seq<Event>, e: Event)
    requires SlotOk(b, slot, log) && SlotLatest(b, slot, log)
    requires e.kind.Other? || Slot(MinuteOf(e.at)) != slot
    ensures SlotOk(b, slot, log + [e]) && SlotLatest(b, slot, log + [e])
  {
    CountOneMore(log, e, Accepted, b.minute);
    CountOneMore(log, e, Stale, b.minute);
  }

  // ----- The queue of faults -----

  /** All faults of the log, oldest first. */
  function Faults(log: seq<Event>): seq<Fault> {
    if log == [] then []
    else
      var e := log[|log| - 1];
      Faults(log[..|log| - 1]) + if e.kind.Other? then [Fault(e.at, e.kind.reason)] else []
  }

  /** `saturating_sub`. */
  function Cutoff(now: nat): nat { if now < REJECT_WINDOW_MINUTES * 60 then 0 else now - REJECT_WINDOW_MINUTES * 60 }

  function Recent(fs: seq<Fault>, now: nat): seq<Fault> {
    if fs == [] then []
    else (if fs[0].at > Cutoff(now) then [fs[0]] else []) + Recent(fs[1..], now)
  }

  function Last(fs: seq<Fault>): seq<Fault> {
    if |fs| <= 256 then fs else fs[|fs| - 256..]
  }

  /** The cutoff is the last hour, except that a fault at time zero is never inside. */
  lemma CutoffIsHour(at: nat, now: nat)
    requires at <= now
    ensures at > Cutoff(now) <==> at > 0 && now - at < 3600
  {
  }

  /** The queue is the faults from `k` on; those before it are out of the hour or
      more than 256 back. */
  ghost predicate QueueFrom(queue: seq<Fault>, all: seq<Fault>, now: nat, k: nat) {
    && k <= |all| && queue == all[k..] && |queue| <= MAX_RECENT_OTHER_REJECTS
    && forall i :: 0 <= i < k ==> all[i].at <= Cutoff(now) || i + MAX_RECENT_OTHER_REJECTS < |all|
  }

  ghost predicate QueueOk(queue: seq<Fault>, all: seq<Fault>, now: nat) {
    exists k: nat :: QueueFrom(queue, all, now, k)
  }

  lemma {:induction false} RecentConcat(a: seq<Fault>, b: seq<Fault>, now: nat)
    ensures Recent(a + b, now) == Recent(a, now) + Recent(b, now)
  {
    if a == [] {
      assert a + b == b;
    } else {
      assert (a + b)[1..] == a[1..] + b;
      RecentConcat(a[1..], b, now);
    }
  }

  lemma {:induction false} RecentNone(a: seq<Fault>, now: nat)
    requires forall i :: 0 <= i < |a| ==> a[i].at <= Cutoff(now)
    ensures Recent(a, now) == []
  {
    if a != [] {
      RecentNone(a[1..], now);
    }
  }

  lemma RecentOneMore(fs: seq<Fault>, f: Fault, now: nat)
    ensures Recent(fs + [f], now) == if f.at > Cutoff(now) then Recent(fs, now) + [f] else Recent(fs, now)
  {
    RecentConcat(fs, [f], now);
  }

  /** Of the last 256 faults the queue has every one still inside the hour. */
  lemma QueueSeesRecent(queue: seq<Fault>, all: seq<Fault>, before: nat, now: nat)
    requires QueueOk(queue, all, before) && before <= now
    ensures Recent(queue, now) == Recent(Last(all), now)
  {
    var k: nat :| QueueFrom(queue, all, before, k);
    var j := if |all| <= MAX_RECENT_OTHER_REJECTS then 0 else |all| - MAX_RECENT_OTHER_REJECTS;
    var gone := all[j..k];
    assert Last(all) == gone + queue;
    forall i | 0 <= i < |gone| ensures gone[i].at <= Cutoff(now) {
      assert gone[i] == all[j + i];
    }
    RecentNone(gone, now);
    RecentConcat(gone, queue, now);
  }

  lemma QueueLater(queue: seq<Fault>, all: seq<Fault>, before: nat, now: nat)
    requires QueueOk(queue, all, before) && before <= now
    ensures QueueOk(queue, all, now)
  {
    var k: nat :| QueueFrom(queue, all, before, k);
    assert QueueFrom(queue, all, now, k);
  }

  lemma QueuePop(queue: seq<Fault>, all: seq<Fault>, now: nat)
    requires QueueOk(queue, all, now) && queue != [] && queue[0].at <= Cutoff(now)
    ensures QueueOk(queue[1..], all, now)
  {
    var k: nat :| QueueFrom(queue, all, now, k);
    assert QueueFrom(queue[1..], all, now, k + 1);
  }

  /** `record_other` after pruning. */
  function Pushed(queue: seq<Fault>, f: Fault): seq<Fault> {
    (if |queue| == MAX_RECENT_OTHER_REJECTS then queue[1..] else queue) + [f]
  }

  lemma QueuePush(queue: seq<Fault>, all: seq<Fault>, now: nat, f: Fault)
    requires QueueOk(queue, all, now)
    ensures QueueOk(Pushed(queue, f), all + [f], now)
  {
    var k: nat :| QueueFrom(queue, all, now, k);
    if |queue| == MAX_RECENT_OTHER_REJECTS {
      assert Pushed(queue, f) == (all + [f])[k + 1..];
      assert QueueFrom(Pushed(queue, f), all + [f], now, k + 1);
    } else {
      assert Pushed(queue, f) == (all + [f])[k..];
      assert QueueFrom(Pushed(queue, f), all + [f], now, k);
    }
  }

  lemma FaultsOneMore(log: seq<Event>, e: Event)
    ensures Faults(log + [e]) == if e.kind.Other? then Faults(log) + [Fault(e.at, e.kind.reason)] else Faults(log)
  {
    assert (log + [e])[..|log|] == log;
  }

  // ----- Histograms -----

  function Tally(fs: seq<Fault>, reason: string): nat {
    if fs == [] then 0
    else Tally(fs[..|fs| - 1], reason) + if fs[|fs| - 1].reason == reason then 1 else 0
  }

  ghost predicate IsHistogram(h: map<string, nat>, fs: seq<Fault>) {
    && (forall reason :: reason in h <==> Tally(fs, reason) > 0)
    && (forall reason :: reason in h ==> h[reason] == Tally(fs, reason))
  }

  lemma HistogramOneMore(h: map<string, nat>, fs: seq<Fault>, f: Fault)
    requires IsHistogram(h, fs)
    ensures IsHistogram(h[f.reason := (if f.reason in h then h[f.reason] else 0) + 1], fs + [f])
  {
    forall reason ensures Tally(fs + [f], reason) == Tally(fs, reason) + if f.reason == reason then 1 else 0 {
      assert (fs + [f])[..|fs|] == fs;
    }
  }

  // ----- The window -----

  function LastAt(log: seq<Event>): nat { if log == [] then 0 else log[|log| - 1].at }

  ghost predicate RingOk(ring: seq<MinuteCounts>, log: seq<Event>) {
    && |ring| == REJECT_WINDOW_MINUTES
    && forall k :: 0 <= k < |ring| ==>
         SlotOk(ring[k], k, log) && SlotLatest(ring[k], k, log) && SlotPast(ring[k], LastAt(log))
  }

  function BumpedRing(ring: seq<MinuteCounts>, now: nat, kind: Kind): seq<MinuteCounts>
    requires |ring| == REJECT_WINDOW_MINUTES
  {
    ring[Slot(MinuteOf(now)) := Bumped(ring[Slot(MinuteOf(now))], MinuteOf(now), kind)]
  }

  lemma PastLater(b: MinuteCounts, before: nat, now: nat)
    requires SlotPast(b, before) && before <= now
    ensures SlotPast(b, now)
  {
  }

  /** Recording an event in its slot keeps the whole ring correct. */
  lemma RingBumped(ring: seq<MinuteCounts>, log: seq<Event>, e: Event)
    requires RingOk(ring, log) && LastAt(log) <= e.at && !e.kind.Other?
    ensures RingOk(BumpedRing(ring, e.at, e.kind), log + [e])
  {
    var k := Slot(MinuteOf(e.at));
    var bumped := BumpedRing(ring, e.at, e.kind);
    forall i | 0 <= i < |bumped|
      ensures SlotOk(bumped[i], i, log + [e]) && SlotLatest(bumped[i], i, log + [e]) && SlotPast(bumped[i], e.at)
    {
      PastLater(ring[i], LastAt(log), e.at);
      if i == k {
        BumpOk(ring[k], log, e);
        BumpLatest(ring[k], log, e);
      } else {
        SlotUnmoved(ring[i], i, log, e);
      }
    }
  }

  lemma RingUnmoved(ring: seq<MinuteCounts>, log: seq<Event>, e: Event)
    requires RingOk(ring, log) && LastAt(log) <= e.at && e.kind.Other?
    ensures RingOk(ring, log + [e])
  {
    forall i | 0 <= i < |ring|
      ensures SlotOk(ring[i], i, log + [e]) && SlotLatest(ring[i], i, log + [e]) && SlotPast(ring[i], e.at)
    {
      PastLater(ring[i], LastAt(log), e.at);
      SlotUnmoved(ring[i], i, log, e);
    }
  }

  ghost predicate Tracks(ring: seq<MinuteCounts>, queue: seq<Fault>, log: seq<Event>) {
    RingOk(ring, log) && QueueOk(queue, Faults(log), LastAt(log)) && NoneAfter(log, LastAt(log))
  }

  lemma StartTracks(ring: seq<MinuteCounts>)
    requires |ring| == REJECT_WINDOW_MINUTES && forall k :: 0 <= k < |ring| ==> ring[k] == MinuteCounts(0, 0, 0)
    ensures Tracks(ring, [], [])
  {
    assert QueueFrom([], [], 0, 0);
  }

  lemma CountTracks(ring: seq<MinuteCounts>, queue: seq<Fault>, log: seq<Event>, e: Event)
    requires Tracks(ring, queue, log) && LastAt(log) <= e.at && !e.kind.Other?
    ensures Tracks(BumpedRing(ring, e.at, e.kind), queue, log + [e])
  {
    RingBumped(ring, log, e);
    FaultsOneMore(log, e);
    QueueLater(queue, Faults(log), LastAt(log), e.at);
  }

  lemma FaultTracks(ring: seq<MinuteCounts>, was: seq<Fault>, queue: seq<Fault>, log: seq<Event>, e: Event)
    requires Tracks(ring, was, log) && LastAt(log) <= e.at && e.kind.Other? && QueueOk(queue, Faults(log), e.at)
    ensures Tracks(ring, Pushed(queue, Fault(e.at, e.kind.reason)), log + [e])
  {
    RingUnmoved(ring, log, e);
    FaultsOneMore(log, e);
    QueuePush(queue, Faults(log), e.at, Fault(e.at, e.kind.reason));
  }

  class RejectWindow {
    const minutes: array<MinuteCounts>
    var other: seq<Fault>
    ghost var log: seq<Event>

    ghost predicate Valid()
      reads this, minutes
    {
      minutes.Length == REJECT_WINDOW_MINUTES && Tracks(minutes[..], other, log)
    }

    constructor ()
      ensures Valid() && fresh(minutes) && log == []
    {
      minutes := new MinuteCounts[REJECT_WINDOW_MINUTES](_ => MinuteCounts(0, 0, 0));
      other := [];
      log := [];
      new;
      StartTracks(minutes[..]);
    }

    /** The bucket of the current minute, emptied if it holds an older one. */
    method Bucket(now: nat) returns (slot: nat)
      requires minutes.Length == REJECT_WINDOW_MINUTES
      modifies minutes
      ensures slot == Slot(MinuteOf(now))
      ensures minutes[..] == old(minutes[..])[slot :=
        if old(minutes[slot]).minute != MinuteOf(now) then MinuteCounts(MinuteOf(now), 0, 0) else old(minutes[slot])]
    {
      var minute := now / 60;
      slot := minute % REJECT_WINDOW_MINUTES;
      if minutes[slot].minute != minute {
        minutes[slot] := MinuteCounts(minute, 0, 0);
      }
    }

    method RecordAccepted(now: nat)
      requires Valid() && LastAt(log) <= now
      modifies this, minutes
      ensures Valid() && log == old(log) + [Event(now, Accepted)]
    {
      CountTracks(minutes[..], other, log, Event(now, Accepted));
      CountAccepted(now);
      log := log + [Event(now, Accepted)];
    }

    method RecordStale(now: nat)
      requires Valid() && LastAt(log) <= now
      modifies this, minutes
      ensures Valid() && log == old(log) + [Event(now, Stale)]
    {
      CountTracks(minutes[..], other, log, Event(now, Stale));
      CountStale(now);
      log := log + [Event(now, Stale)];
    }

    method CountAccepted(now: nat)
      requires minutes.Length == REJECT_WINDOW_MINUTES
      modifies minutes
      ensures minutes[..] == BumpedRing(old(minutes[..]), now, Accepted)
    {
      var slot := Bucket(now);
      minutes[slot] := minutes[slot].(accepted := Sat(minutes[slot].accepted + 1));
    }

    method CountStale(now: nat)
      requires minutes.Length == REJECT_WINDOW_MINUTES
      modifies minutes
      ensures minutes[..] == BumpedRing(old(minutes[..]), now, Stale)
    {
      var slot := Bucket(now);
      minutes[slot] := minutes[slot].(stale := Sat(minutes[slot].stale + 1));
    }

    method RecordOther(now: nat, reason: string)
      requires Valid() && LastAt(log) <= now
      modifies this
      ensures Valid() && log == old(log) + [Event(now, Other(reason))]
    {
      QueueLater(other, Faults(log), LastAt(log), now);
      Prune(now);
      FaultTracks(minutes[..], old(other), other, log, Event(now, Other(reason)));
      if |other| == MAX_RECENT_OTHER_REJECTS {
        other := other[1..];
      }
      other := other + [Fault(now, reason)];
      log := log + [Event(now, Other(reason))];
    }

    method Prune(now: nat)
      requires QueueOk(other, Faults(log), now)
      modifies this`other
      ensures QueueOk(other, Faults(log), now)
    {
      var cutoff := Cutoff(now);
      while other != [] && other[0].at <= cutoff
        invariant QueueOk(other, Faults(log), now)
        decreases |other|
      {
        QueuePop(other, Faults(log), now);
        other := other[1..];
      }
    }

    /** Accepted, stale and other rejects of the window ending at `now`. */
    method Summary(now: nat) returns (accepted: nat, stale: nat, others: map<string, nat>)
      requires Valid() && LastAt(log) <= now
      ensures accepted <= WindowCount(log, Accepted, now / 60)
      ensures stale <= WindowCount(log, Stale, now / 60)
      ensures Unsaturated(log, Accepted) ==> accepted == WindowCount(log, Accepted, now / 60)
      ensures Unsaturated(log, Stale) ==> stale == WindowCount(log, Stale, now / 60)
      ensures IsHistogram(others, Recent(Last(Faults(log)), now))
    {
      accepted, stale := Totals(now);
      SlotsCoverWindow(log, Accepted, MinuteOf(now));
      SlotsCoverWindow(log, Stale, MinuteOf(now));
      SatSumBelow(log, Accepted, MinuteOf(now), REJECT_WINDOW_MINUTES);
      SatSumBelow(log, Stale, MinuteOf(now), REJECT_WINDOW_MINUTES);
      others := RecentOthers(now);
      QueueSeesRecent(other, Faults(log), LastAt(log), now);
    }

    /** Every minute counts, up to the width of its counter. */
    method Totals(now: nat) returns (accepted: nat, stale: nat)
      requires Valid() && LastAt(log) <= now
      ensures accepted == SatSumTo(log, Accepted, MinuteOf(now), REJECT_WINDOW_MINUTES)
      ensures stale == SatSumTo(log, Stale, MinuteOf(now), REJECT_WINDOW_MINUTES)
    {
      var nowMinute := now / 60;
      accepted, stale := 0, 0;
      var k := 0;
      while k < REJECT_WINDOW_MINUTES
        invariant 0 <= k <= REJECT_WINDOW_MINUTES
        invariant accepted == SatSumTo(log, Accepted, nowMinute, k)
        invariant stale == SatSumTo(log, Stale, nowMinute, k)
      {
        var b := minutes[k];
        assert b == minutes[..][k];
        PastLater(b, LastAt(log), now);
        SlotContribution(b, k, log, Accepted, now);
        SlotContribution(b, k, log, Stale, now);
        if b.minute + REJECT_WINDOW_MINUTES > nowMinute && b.minute <= nowMinute {
          accepted := accepted + b.accepted;
          stale := stale + b.stale;
        }
        k := k + 1;
      }
    }

    method RecentOthers(now: nat) returns (others: map<string, nat>)
      ensures IsHistogram(others, Recent(other, now))
    {
      var cutoff := Cutoff(now);
      others := map[];
      var i := 0;
      while i < |other|
        invariant 0 <= i <= |other|
        invariant IsHistogram(others, Recent(other[..i], now))
      {
        assert other[..i + 1] == other[..i] + [other[i]];
        RecentOneMore(other[..i], other[i], now);
        if other[i].at > cutoff {
          var reason := other[i].reason;
          HistogramOneMore(others, Recent(other[..i], now), other[i]);
          others := others[reason := (if reason in others then others[reason] else 0) + 1];
        }
        i := i + 1;
      }
      assert other[..|other|] == other;
    }
  }
}
