/** The sliding record of credited shares (src/mining/vardiff.rs).

    A record belongs to a worker, not to a connection: a closing session hands it
    over and the worker's next session takes it back. Times are nanoseconds on one
    monotone clock. */
module ShareRecord {
  import opened Wrappers

  const SECOND: nat := 1_000_000_000
  const RETENTION: nat := 86_400 * SECOND

  datatype Share = Share(at: nat, difficulty: nat)

  datatype Record = Record(shares: seq<Share>, startedAt: nat)

  /** `duration_since`, which is zero for a later instant. */
  function Age(now: nat, at: nat): nat { if now >= at then now - at else 0 }

  predicate Within(s: Share, now: nat, window: nat) { Age(now, s.at) <= window }

  /** Credited work inside the trailing window. */
  function Work(shares: seq<Share>, now: nat, window: nat): nat {
    if shares == [] then 0
    else (if Within(shares[0], now, window) then shares[0].difficulty else 0) + Work(shares[1..], now, window)
  }

  function Capped(n: nat): nat { if n < U64_MAX then n else U64_MAX }

  /** The shares from the first retained one on. */
  function Evict(shares: seq<Share>, now: nat): seq<Share> {
    if shares != [] && !Within(shares[0], now, RETENTION) then Evict(shares[1..], now) else shares
  }

  function Retained(shares: seq<Share>, now: nat): seq<Share> {
    if shares == [] then []
    else (if Within(shares[0], now, RETENTION) then [shares[0]] else []) + Retained(shares[1..], now)
  }

  /** `record_share`. */
  function Recorded(r: Record, now: nat, difficulty: nat): Record {
    r.(shares := Evict(r.shares + [Share(now, difficulty)], now))
  }

  /** `restore_share_history`: the earlier record in front, the earlier anchor. */
  function Restored(own: Record, earlier: Record, now: nat): Record {
    Record(Retained(earlier.shares, now) + own.shares,
           if own.startedAt < earlier.startedAt then own.startedAt else earlier.startedAt)
  }

  lemma {:induction false} WorkConcat(a: seq<Share>, b: seq<Share>, now: nat, window: nat)
    ensures Work(a + b, now, window) == Work(a, now, window) + Work(b, now, window)
  {
    if a == [] {
      assert a + b == b;
    } else {
      WorkConcat(a[1..], b, now, window);
      assert (a + b)[1..] == a[1..] + b;
    }
  }

  // ----- What a window and the record see, in instants -----

  /** A window counts a share's difficulty until exactly `window` after it; with
      `WorkConcat` this says what any list of shares counts. */
  lemma WorkOfOne(s: Share, now: nat, window: nat)
    ensures Work([s], now, window) == if now <= s.at + window then s.difficulty else 0
  {
    assert [s][1..] == [];
  }

  lemma {:induction false} RetainedConcat(a: seq<Share>, b: seq<Share>, now: nat)
    ensures Retained(a + b, now) == Retained(a, now) + Retained(b, now)
  {
    if a == [] {
      assert a + b == b;
    } else {
      RetainedConcat(a[1..], b, now);
      assert (a + b)[1..] == a[1..] + b && (a + b)[0] == a[0];
      var head := if Within(a[0], now, RETENTION) then [a[0]] else [];
      ConcatRight(head, Retained(a[1..], now), Retained(b, now));
    }
  }

  lemma ConcatRight(x: seq<Share>, y: seq<Share>, z: seq<Share>)
    ensures x + (y + z) == x + y + z
  {
  }

  /** A share is worth keeping until exactly 24 hours after it. */
  lemma RetainedOfOne(s: Share, now: nat)
    ensures Retained([s], now) == if now <= s.at + 86_400_000_000_000 then [s] else []
  {
    assert [s][1..] == [];
  }

  /** What is left of `all` when the expired shares in front are dropped: everything
      before position `k` is more than 24 hours old, the share there is not. */
  ghost predicate Trimmed(all: seq<Share>, kept: seq<Share>, now: nat, k: nat) {
    && k <= |all| && kept == all[k..]
    && (forall i :: 0 <= i < k ==> all[i].at + 86_400_000_000_000 < now)
    && (kept != [] ==> now <= kept[0].at + 86_400_000_000_000)
  }

  lemma {:induction false} EvictTrims(all: seq<Share>, k: nat, now: nat)
    requires k <= |all| && forall i :: 0 <= i < k ==> all[i].at + 86_400_000_000_000 < now
    ensures exists j: nat :: Trimmed(all, Evict(all[k..], now), now, j)
    decreases |all| - k
  {
    if k < |all| && !Within(all[k], now, RETENTION) {
      assert all[k..][1..] == all[k + 1..];
      EvictTrims(all, k + 1, now);
    } else {
      assert Trimmed(all, Evict(all[k..], now), now, k);
    }
  }

  // ----- A record against the full log of the worker's shares -----

  ghost predicate Sorted(log: seq<Share>) {
    forall i, j :: 0 <= i < j < |log| ==> log[i].at <= log[j].at
  }

  /** Shares from position `k` on, everything before it past retention. */
  ghost predicate Suffix(shares: seq<Share>, log: seq<Share>, now: nat, k: nat) {
    && k <= |log| && shares == log[k..]
    && forall i :: 0 <= i < k ==> !Within(log[i], now, RETENTION)
  }

  /** The record has lost only what no window up to 24 hours can see. */
  ghost predicate Holds(shares: seq<Share>, log: seq<Share>, now: nat) {
    exists k: nat :: Suffix(shares, log, now, k)
  }

  lemma {:induction false} PastRetention(log: seq<Share>, now: nat, window: nat)
    requires window <= RETENTION && forall i :: 0 <= i < |log| ==> !Within(log[i], now, RETENTION)
    ensures Work(log, now, window) == 0
  {
    if log != [] {
      PastRetention(log[1..], now, window);
    }
  }

  /** For every window up to 24 hours the record gives the sum over the full log. */
  lemma WorkOfSuffix(shares: seq<Share>, log: seq<Share>, now: nat, window: nat)
    requires Holds(shares, log, now) && window <= RETENTION
    ensures Work(shares, now, window) == Work(log, now, window)
  {
    var k: nat :| Suffix(shares, log, now, k);
    assert log == log[..k] + log[k..];
    WorkConcat(log[..k], log[k..], now, window);
    PastRetention(log[..k], now, window);
  }

  lemma HoldsLater(shares: seq<Share>, log: seq<Share>, now: nat, later: nat)
    requires Holds(shares, log, now) && now <= later
    ensures Holds(shares, log, later)
  {
    var k: nat :| Suffix(shares, log, now, k);
    assert Suffix(shares, log, later, k);
  }

  lemma {:induction false} EvictHolds(shares: seq<Share>, log: seq<Share>, now: nat)
    requires Holds(shares, log, now)
    ensures Holds(Evict(shares, now), log, now)
  {
    if shares != [] && !Within(shares[0], now, RETENTION) {
      var k: nat :| Suffix(shares, log, now, k);
      assert shares[1..] == log[k + 1..] && shares[0] == log[k];
      assert Suffix(shares[1..], log, now, k + 1);
      EvictHolds(shares[1..], log, now);
    }
  }

  lemma RecordHolds(shares: seq<Share>, log: seq<Share>, now: nat, s: Share)
    requires Holds(shares, log, now)
    ensures Holds(Evict(shares + [s], now), log + [s], now)
  {
    var k: nat :| Suffix(shares, log, now, k);
    assert shares + [s] == (log + [s])[k..];
    assert Suffix(shares + [s], log + [s], now, k);
    EvictHolds(shares + [s], log + [s], now);
  }

  lemma {:induction false} AllRetained(shares: seq<Share>, now: nat)
    requires forall i :: 0 <= i < |shares| ==> Within(shares[i], now, RETENTION)
    ensures Retained(shares, now) == shares
  {
    if shares != [] {
      AllRetained(shares[1..], now);
    }
  }

  /** On a time-ordered record, filtering and evicting from the front agree. */
  lemma {:induction false} RetainedIsEvict(shares: seq<Share>, now: nat)
    requires Sorted(shares)
    ensures Retained(shares, now) == Evict(shares, now)
  {
    if shares != [] {
      if Within(shares[0], now, RETENTION) {
        AllRetained(shares, now);
      } else {
        RetainedIsEvict(shares[1..], now);
      }
    }
  }

  lemma RestoreHolds(earlier: seq<Share>, log: seq<Share>, now: nat)
    requires Holds(earlier, log, now) && Sorted(log)
    ensures Holds(Retained(earlier, now) + [], log, now)
  {
    var k: nat :| Suffix(earlier, log, now, k);
    RetainedIsEvict(earlier, now);
    EvictHolds(earlier, log, now);
    assert Retained(earlier, now) + [] == Retained(earlier, now);
  }
}
