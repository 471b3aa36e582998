/** Per-address connection rate limiting over a sliding minute (src/security/mod.rs).

    The limiter forgets as it goes; its decisions are compared with the full log of
    connections it let in, kept as ghost state. Instants are nanoseconds since the
    clock's origin, and a call reads the clock up to three times. */
module RateLimiter {
  import opened Wrappers

  type Ip = string

  const MINUTE: nat := 60_000_000_000

  datatype Admission = Admission(ip: Ip, at: nat)

  /** Inside the minute before `now`. A host up for less than a minute has no cutoff
      and keeps everything, which is the same thing. */
  predicate Recent(at: nat, now: nat) { now < at + MINUTE }

  function CountTimes(times: seq<nat>, now: nat): nat {
    if times == [] then 0
    else CountTimes(times[..|times| - 1], now) + if Recent(times[|times| - 1], now) then 1 else 0
  }

  function Retain(times: seq<nat>, now: nat): seq<nat> {
    if times == [] then []
    else Retain(times[..|times| - 1], now) + if Recent(times[|times| - 1], now) then [times[|times| - 1]] else []
  }

  /** Connections of an address admitted in the minute before `now`. */
  function Count(log: seq<Admission>, ip: Ip, now: nat): nat {
    if log == [] then 0
    else
      var a := log[|log| - 1];
      Count(log[..|log| - 1], ip, now) + if a.ip == ip && Recent(a.at, now) then 1 else 0
  }

  /** Those of them no later than `end`. */
  function CountUpTo(log: seq<Admission>, ip: Ip, end: nat): nat {
    if log == [] then 0
    else
      var a := log[|log| - 1];
      CountUpTo(log[..|log| - 1], ip, end) + if a.ip == ip && a.at <= end && Recent(a.at, end) then 1 else 0
  }

  /** Addresses admitted in the minute before `now`. */
  function Active(log: seq<Admission>, now: nat): set<Ip> {
    set i | 0 <= i < |log| && Recent(log[i].at, now) :: log[i].ip
  }

  lemma {:induction false} RetainLater(times: seq<nat>, now: nat, later: nat)
    requires now <= later
    ensures CountTimes(Retain(times, now), later) == CountTimes(times, later)
  {
    if times != [] {
      var (init, last) := (times[..|times| - 1], times[|times| - 1]);
      RetainLater(init, now, later);
      if Recent(last, now) {
        PushTime(Retain(init, now), last, later);
      } else {
        assert Retain(times, now) == Retain(init, now);
      }
    }
  }

  /** Everything retained is recent, so its length is the count. */
  lemma {:induction false} RetainedCount(times: seq<nat>, now: nat)
    ensures |Retain(times, now)| == CountTimes(times, now)
  {
    if times != [] {
      RetainedCount(times[..|times| - 1], now);
    }
  }

  lemma {:induction false} RetainFewer(times: seq<nat>, now: nat, t: nat)
    ensures CountTimes(Retain(times, now), t) <= CountTimes(times, t)
  {
    if times != [] {
      var (init, last) := (times[..|times| - 1], times[|times| - 1]);
      RetainFewer(init, now, t);
      if Recent(last, now) {
        PushTime(Retain(init, now), last, t);
      } else {
        assert Retain(times, now) == Retain(init, now);
      }
    }
  }

  /** An older cutoff counts no fewer. */
  lemma {:induction false} OlderCutoff(times: seq<nat>, now: nat, later: nat)
    requires now <= later
    ensures CountTimes(times, later) <= CountTimes(times, now)
  {
    if times != [] {
      OlderCutoff(times[..|times| - 1], now, later);
    }
  }

  lemma PushTime(times: seq<nat>, at: nat, now: nat)
    ensures CountTimes(times + [at], now) == CountTimes(times, now) + if Recent(at, now) then 1 else 0
  {
    assert (times + [at])[..|times|] == times;
  }

  lemma PushAdmission(log: seq<Admission>, a: Admission, ip: Ip, now: nat)
    ensures Count(log + [a], ip, now) == Count(log, ip, now) + if a.ip == ip && Recent(a.at, now) then 1 else 0
    ensures CountUpTo(log + [a], ip, now)
         == CountUpTo(log, ip, now) + if a.ip == ip && a.at <= now && Recent(a.at, now) then 1 else 0
  {
    assert (log + [a])[..|log|] == log;
  }

  lemma {:induction false} NoneRecent(times: seq<nat>, now: nat, later: nat)
    requires now <= later && forall i :: 0 <= i < |times| ==> !Recent(times[i], now)
    ensures CountTimes(times, later) == 0
  {
    if times != [] {
      NoneRecent(times[..|times| - 1], now, later);
    }
  }

  lemma {:induction false} SomeRecent(times: seq<nat>, now: nat, i: nat)
    requires i < |times| && Recent(times[i], now)
    ensures CountTimes(times, now) > 0
  {
    if i < |times| - 1 {
      SomeRecent(times[..|times| - 1], now, i);
    }
  }

  lemma {:induction false} CountedIsActive(log: seq<Admission>, ip: Ip, now: nat)
    requires Count(log, ip, now) > 0
    ensures ip in Active(log, now)
  {
    var last := log[|log| - 1];
    if last.ip != ip || !Recent(last.at, now) {
      CountedIsActive(log[..|log| - 1], ip, now);
      var i :| 0 <= i < |log| - 1 && Recent(log[..|log| - 1][i].at, now) && log[..|log| - 1][i].ip == ip;
      assert log[i].ip == ip && Recent(log[i].at, now);
    }
  }

  /** A window reaching further forward holds no more of what is already there. */
  lemma {:induction false} LaterWindow(log: seq<Admission>, ip: Ip, now: nat, end: nat)
    requires now <= end
    ensures CountUpTo(log, ip, end) <= Count(log, ip, now)
  {
    if log != [] {
      LaterWindow(log[..|log| - 1], ip, now, end);
    }
  }

  // ----- The same counts from the instants in the log -----

  /** The log's entries for an address whose minute is not over at `now`. */
  function Since(log: seq<Admission>, ip: Ip, now: nat): set<nat> {
    set i: nat | i < |log| && log[i].ip == ip && now < log[i].at + 60_000_000_000
  }

  /** Its entries in the minute that ends at `end`. */
  function InMinute(log: seq<Admission>, ip: Ip, end: nat): set<nat> {
    set i: nat | i < |log| && log[i].ip == ip && log[i].at <= end && end < log[i].at + 60_000_000_000
  }

  lemma {:induction false} CountIsSince(log: seq<Admission>, ip: Ip, now: nat)
    ensures Count(log, ip, now) == |Since(log, ip, now)|
  {
    if log != [] {
      var n := |log| - 1;
      CountIsSince(log[..n], ip, now);
      var less := Since(log[..n], ip, now);
      if log[n].ip == ip && Recent(log[n].at, now) {
        assert Since(log, ip, now) == less + {n};
      } else {
        assert Since(log, ip, now) == less;
      }
    }
  }

  lemma {:induction false} CountUpToIsInMinute(log: seq<Admission>, ip: Ip, end: nat)
    ensures CountUpTo(log, ip, end) == |InMinute(log, ip, end)|
  {
    if log != [] {
      var n := |log| - 1;
      CountUpToIsInMinute(log[..n], ip, end);
      var less := InMinute(log[..n], ip, end);
      if log[n].ip == ip && log[n].at <= end && Recent(log[n].at, end) {
        assert InMinute(log, ip, end) == less + {n};
      } else {
        assert InMinute(log, ip, end) == less;
      }
    }
  }

  /** The limit in the instants themselves: over no sixty seconds does the log hold more
      than `max` entries of one address. */
  lemma LimitedIff(log: seq<Admission>, max: nat)
    ensures Limited(log, max) <==> forall ip, end :: |InMinute(log, ip, end)| <= max
  {
    forall ip, end ensures CountUpTo(log, ip, end) == |InMinute(log, ip, end)| {
      CountUpToIsInMinute(log, ip, end);
    }
  }

  /** The addresses admitted in the minute before `now` are those with such an entry. */
  lemma ActiveIff(log: seq<Admission>, ip: Ip, now: nat)
    ensures ip in Active(log, now) <==> Since(log, ip, now) != {}
  {
    if ip in Active(log, now) {
      var i :| 0 <= i < |log| && Recent(log[i].at, now) && log[i].ip == ip;
      assert i in Since(log, ip, now);
    }
  }

  function Times(windows: map<Ip, seq<nat>>, ip: Ip): seq<nat> { if ip in windows then windows[ip] else [] }

  /** From `last` on the limiter counts what the log counts. */
  ghost predicate Tracks(windows: map<Ip, seq<nat>>, log: seq<Admission>, last: nat) {
    forall ip, now :: now >= last ==> CountTimes(Times(windows, ip), now) == Count(log, ip, now)
  }

  /** The limiter never counts what the log does not. */
  ghost predicate Contained(windows: map<Ip, seq<nat>>, log: seq<Admission>) {
    forall ip, now :: CountTimes(Times(windows, ip), now) <= Count(log, ip, now)
  }

  /** No address ever has more than `max` admissions in any minute. */
  ghost predicate Limited(log: seq<Admission>, max: nat) {
    forall ip, end :: CountUpTo(log, ip, end) <= max
  }

  lemma AdmitLimited(log: seq<Admission>, max: nat, ip: Ip, now: nat, at: nat)
    requires Limited(log, max) && Count(log, ip, now) < max && now <= at
    ensures Limited(log + [Admission(ip, at)], max)
  {
    forall other, end ensures CountUpTo(log + [Admission(ip, at)], other, end) <= max {
      PushAdmission(log, Admission(ip, at), other, end);
      assert CountUpTo(log, other, end) <= max;
      if other == ip && at <= end {
        LaterWindow(log, ip, now, end);
      }
    }
  }

  lemma AdmitTracks(windows: map<Ip, seq<nat>>, log: seq<Admission>, last: nat, ip: Ip, kept: seq<nat>, at: nat)
    requires Tracks(windows[ip := kept], log, last) && last <= at
    ensures Tracks(windows[ip := kept + [at]], log + [Admission(ip, at)], at)
  {
    forall other, now | now >= at
      ensures CountTimes(Times(windows[ip := kept + [at]], other), now) == Count(log + [Admission(ip, at)], other, now)
    {
      assert CountTimes(Times(windows[ip := kept], other), now) == Count(log, other, now);
      PushAdmission(log, Admission(ip, at), other, now);
      PushTime(kept, at, now);
    }
  }

  lemma TracksLater(windows: map<Ip, seq<nat>>, log: seq<Admission>, last: nat, now: nat)
    requires Tracks(windows, log, last) && last <= now
    ensures Tracks(windows, log, now)
  {
  }

  lemma RetainTracks(windows: map<Ip, seq<nat>>, log: seq<Admission>, last: nat, now: nat, ip: Ip)
    requires Tracks(windows, log, last) && now <= last
    ensures Tracks(windows[ip := Retain(Times(windows, ip), now)], log, last)
  {
    var q := windows[ip := Retain(Times(windows, ip), now)];
    forall other, later | later >= last ensures CountTimes(Times(q, other), later) == Count(log, other, later) {
      RetainLater(Times(windows, ip), now, later);
      assert CountTimes(Times(windows, other), later) == Count(log, other, later);
    }
  }

  predicate Live(times: seq<nat>, now: nat) { exists i :: 0 <= i < |times| && Recent(times[i], now) }

  function Pruned(windows: map<Ip, seq<nat>>, now: nat): map<Ip, seq<nat>> {
    map ip | ip in windows && Live(windows[ip], now) :: windows[ip]
  }

  lemma PruneTracks(windows: map<Ip, seq<nat>>, log: seq<Admission>, now: nat, last: nat)
    requires Tracks(windows, log, last) && now <= last
    ensures Tracks(Pruned(windows, now), log, last)
  {
    forall ip, later | later >= last ensures CountTimes(Times(Pruned(windows, now), ip), later) == Count(log, ip, later) {
      assert CountTimes(Times(windows, ip), later) == Count(log, ip, later);
      if ip in windows && !Live(windows[ip], now) {
        NoneRecent(windows[ip], now, later);
      }
    }
  }

  /** After a prune every tracked address was admitted within the minute. */
  lemma PrunedAreActive(windows: map<Ip, seq<nat>>, log: seq<Admission>, now: nat)
    requires Contained(windows, log)
    ensures |Pruned(windows, now)| <= |Active(log, now)|
  {
    var kept := Pruned(windows, now);
    forall ip | ip in kept.Keys ensures ip in Active(log, now) {
      var i :| 0 <= i < |windows[ip]| && Recent(windows[ip][i], now);
      SomeRecent(windows[ip], now, i);
      assert CountTimes(Times(windows, ip), now) <= Count(log, ip, now);
      CountedIsActive(log, ip, now);
    }
    SubsetSize(kept.Keys, Active(log, now));
    assert |kept.Keys| == |kept|;
  }

  lemma PruneContained(windows: map<Ip, seq<nat>>, log: seq<Admission>, now: nat)
    requires Contained(windows, log)
    ensures Contained(Pruned(windows, now), log)
  {
    forall ip, t ensures CountTimes(Times(Pruned(windows, now), ip), t) <= Count(log, ip, t) {
      assert CountTimes(Times(windows, ip), t) <= Count(log, ip, t);
    }
  }

  lemma RetainContained(windows: map<Ip, seq<nat>>, log: seq<Admission>, now: nat, ip: Ip)
    requires Contained(windows, log)
    ensures Contained(windows[ip := Retain(Times(windows, ip), now)], log)
  {
    var q := windows[ip := Retain(Times(windows, ip), now)];
    forall other, t ensures CountTimes(Times(q, other), t) <= Count(log, other, t) {
      RetainFewer(Times(windows, ip), now, t);
      assert CountTimes(Times(windows, other), t) <= Count(log, other, t);
    }
  }

  lemma AdmitContained(windows: map<Ip, seq<nat>>, log: seq<Admission>, ip: Ip, kept: seq<nat>, at: nat)
    requires Contained(windows[ip := kept], log)
    ensures Contained(windows[ip := kept + [at]], log + [Admission(ip, at)])
  {
    forall other, t ensures CountTimes(Times(windows[ip := kept + [at]], other), t) <= Count(log + [Admission(ip, at)], other, t) {
      assert CountTimes(Times(windows[ip := kept], other), t) <= Count(log, other, t);
      PushAdmission(log, Admission(ip, at), other, t);
      PushTime(kept, at, t);
    }
  }

  /** The retained entry's length against the log, from both clock readings. */
  lemma EntryCounts(windows: map<Ip, seq<nat>>, log: seq<Admission>, ip: Ip, now: nat, from: nat)
    requires Contained(windows, log) && now <= from && CountTimes(Times(windows, ip), from) == Count(log, ip, from)
    ensures Count(log, ip, from) <= |Retain(Times(windows, ip), now)| <= Count(log, ip, now)
  {
    var times := Times(windows, ip);
    assert CountTimes(times, now) <= Count(log, ip, now);
    OlderCutoff(times, now, from);
    RetainedCount(times, now);
  }

  lemma EntryKeeps(windows: map<Ip, seq<nat>>, log: seq<Admission>, last: nat, ip: Ip, now: nat, at: nat)
    requires Tracks(windows, log, last) && Contained(windows, log) && now <= at && last <= at
    ensures var q := windows[ip := Retain(Times(windows, ip), now)]; Tracks(q, log, at) && Contained(q, log)
  {
    TracksLater(windows, log, last, at);
    RetainTracks(windows, log, at, now, ip);
    RetainContained(windows, log, now, ip);
  }

  lemma NextKeeps(windows: map<Ip, seq<nat>>, log: seq<Admission>, ip: Ip, entry: seq<nat>, at: nat)
    requires Tracks(windows[ip := entry], log, at) && Contained(windows[ip := entry], log)
    ensures var q := windows[ip := entry][ip := entry + [at]];
            Tracks(q, log + [Admission(ip, at)], at) && Contained(q, log + [Admission(ip, at)])
  {
    assert windows[ip := entry][ip := entry + [at]] == windows[ip := entry + [at]];
    AdmitTracks(windows, log, at, ip, entry, at);
    AdmitContained(windows, log, ip, entry, at);
  }

  function Later(a: nat, b: nat): nat { if a <= b then b else a }

  class ConnectionRateLimiter {
    var windows: map<Ip, seq<nat>>
    const maxPerMinute: nat
    const maxTracked: nat
    ghost var log: seq<Admission>
    ghost var last: nat

    ghost predicate Valid()
      reads this
    {
      Tracks(windows, log, last) && Contained(windows, log) && Limited(log, maxPerMinute)
    }

    constructor (maxPerMinute: nat, maxTracked: nat)
      ensures Valid() && log == [] && last == 0
      ensures this.maxPerMinute == maxPerMinute && this.maxTracked == maxTracked
    {
      this.maxPerMinute := maxPerMinute;
      this.maxTracked := maxTracked;
      windows := map[];
      log := [];
      last := 0;
    }

    /** Calls may overlap: the first clock reading may be older than admissions and prunes
        of other calls, the one at the admission is the latest. A connection is let in
        only if the address is below the limit for the minute, and turned away only if
        it is at the limit since the first reading, or it is new and `maxTracked`
        addresses were let in within the minute. `Valid()` keeps every minute of the log
        within the limit. */
    method CheckAndRecord(ip: Ip, now: nat, pruneAt: nat, at: nat) returns (allowed: bool)
      requires Valid() && now <= pruneAt <= at && last <= at
      modifies this
      ensures Valid() && last == at
      ensures log == if allowed then old(log) + [Admission(ip, at)] else old(log)
      ensures forall other, end :: |InMinute(log, other, end)| <= maxPerMinute
      ensures allowed ==> |Since(old(log), ip, Later(old(last), now))| < maxPerMinute
      ensures !allowed ==>
        || |Since(old(log), ip, now)| >= maxPerMinute
        || (|Since(old(log), ip, Later(old(last), now))| == 0 && |Active(old(log), pruneAt)| >= maxTracked)
    {
      ghost var from := Later(last, now);
      CountIsSince(log, ip, now);
      CountIsSince(log, ip, from);
      LimitedIff(log, maxPerMinute);
      assert CountTimes(Times(windows, ip), from) == Count(log, ip, from);
      if |windows| >= maxTracked && ip !in windows {
        PrunedAreActive(windows, log, pruneAt);
        Prune(pruneAt);
        if |windows| >= maxTracked {
          TracksLater(windows, log, last, at);
          last := at;
          return false;
        }
      }
      allowed := Admit(ip, now, at, from);
      LimitedIff(log, maxPerMinute);
    }

    /** The rest of the call, under the lock of the address's entry. */
    method Admit(ip: Ip, now: nat, at: nat, ghost from: nat) returns (allowed: bool)
      requires Valid() && now <= from <= at && last <= at
      requires CountTimes(Times(windows, ip), from) == Count(log, ip, from)
      modifies this
      ensures Valid() && last == at
      ensures log == if allowed then old(log) + [Admission(ip, at)] else old(log)
      ensures allowed ==> Count(old(log), ip, from) < maxPerMinute
      ensures !allowed ==> Count(old(log), ip, now) >= maxPerMinute
    {
      var times := Times(windows, ip);
      var entry := Retain(times, now);
      EntryCounts(windows, log, ip, now, from);
      EntryKeeps(windows, log, last, ip, now, at);
      NextKeeps(windows, log, ip, entry, at);
      windows := windows[ip := entry];
      last := at;
      if |entry| >= maxPerMinute {
        return false;
      }
      AdmitLimited(log, maxPerMinute, ip, from, at);
      windows := windows[ip := entry + [at]];
      log := log + [Admission(ip, at)];
      return true;
    }

    /** Forgetting idle addresses changes neither the log nor any later decision. */
    method Prune(now: nat)
      requires Valid()
      modifies this`windows, this`last
      ensures Valid() && last == Later(old(last), now) && windows == Pruned(old(windows), now)
    {
      last := Later(last, now);
      TracksLater(windows, log, old(last), last);
      PruneTracks(windows, log, now, last);
      PruneContained(windows, log, now);
      windows := map ip | ip in windows && Live(windows[ip], now) :: windows[ip];
    }
  }
}
