/**
 The burst budget and the cache of applied packets over every run of calls for one
 peer.  The session may change in any way between calls; the clock may not go back.
 */
module SyncBudget {
  import opened Symbolic
  import opened RatchetSpec
  import opened SyncSpec
  import opened SkipCache

  datatype Call = Call(live: Option<Session>, packet: Packet, times: Times)

  /** The ledger together with the complete history it abbreviates. */
  datatype Trace = Trace(ledger: Ledger, stamps: seq<nat>, applied: seq<Applied>)

  const EMPTY := Trace(Ledger([], []), [], [])

  ghost function Step(tr: Trace, c: Call): Trace {
    var (ledger, _, verdict) := ProcessSync(tr.ledger, c.live, c.packet, c.times);
    if verdict.Accepted? then
      Trace(ledger, tr.stamps + [c.times.stamp], tr.applied + [Applied(c.packet.digest, c.times.record)])
    else
      tr.(ledger := ledger)
  }

  ghost function Run(tr: Trace, calls: seq<Call>): Trace
    decreases |calls|
  {
    if calls == [] then tr else Run(Step(tr, calls[0]), calls[1..])
  }

  predicate InOrder(now: nat, t: Times) {
    now <= t.lookup <= t.check <= t.stamp <= t.record
  }

  predicate ClockRuns(now: nat, calls: seq<Call>)
    decreases |calls|
  {
    calls != [] ==> InOrder(now, calls[0].times) && ClockRuns(calls[0].times.record, calls[1..])
  }

  // ----- Queues as suffixes of the history -----

  ghost predicate Chronological<T>(q: seq<T>, at: T -> nat, now: nat) {
    && (forall i, j :: 0 <= i < j < |q| ==> at(q[i]) <= at(q[j]))
    && (forall i :: 0 <= i < |q| ==> at(q[i]) <= now)
  }

  ghost predicate Suffix<T>(q: seq<T>, all: seq<T>) {
    |q| <= |all| && q == all[|all| - |q|..]
  }

  lemma {:induction false} SuffixAt<T>(q: seq<T>, all: seq<T>, i: nat)
    requires Suffix(q, all) && i < |q|
    ensures all[|all| - |q| + i] == q[i]
  {}

  lemma {:induction false} SuffixTwice<T>(r: seq<T>, q: seq<T>, all: seq<T>)
    requires Suffix(r, q) && Suffix(q, all)
    ensures Suffix(r, all)
  {}

  lemma {:induction false} SuffixSorted<T>(q: seq<T>, all: seq<T>, at: T -> nat, now: nat)
    requires Suffix(q, all) && Chronological(all, at, now)
    ensures Chronological(q, at, now)
  {}

  lemma {:induction false} RetainAll<T>(q: seq<T>, at: T -> nat, now: nat, span: nat)
    requires forall i :: 0 <= i < |q| ==> Elapsed(now, at(q[i])) < span
    ensures Retain(q, at, now, span) == q
  {
    if q != [] {
      RetainAll(q[1..], at, now, span);
      assert q == [q[0]] + q[1..];
    }
  }

  /** On a sorted queue, retaining the young entries drops a prefix. */
  lemma {:induction false} RetainSorted<T>(q: seq<T>, at: T -> nat, now: nat, span: nat)
    requires Chronological(q, at, now)
    ensures var r := Retain(q, at, now, span);
            && Suffix(r, q)
            && (forall i :: 0 <= i < |q| - |r| ==> Elapsed(now, at(q[i])) >= span)
            && (forall i :: |q| - |r| <= i < |q| ==> Elapsed(now, at(q[i])) < span)
  {
    if q != [] {
      if Elapsed(now, at(q[0])) < span {
        RetainAll(q, at, now, span);
      } else {
        var rest := q[1..];
        var r := Retain(rest, at, now, span);
        SuffixSorted(rest, q, at, now);
        RetainSorted(rest, at, now, span);
        SuffixTwice(r, rest, q);
        assert Retain(q, at, now, span) == r;
        forall i | 0 < i < |q| ensures q[i] == rest[i - 1] {
          SuffixAt(rest, q, i - 1);
        }
      }
    }
  }

  /** Retaining twice is retaining at the later instant. */
  lemma {:induction false} RetainTwice<T>(q: seq<T>, at: T -> nat, now: nat, later: nat, span: nat)
    requires now <= later
    ensures Retain(Retain(q, at, now, span), at, later, span) == Retain(q, at, later, span)
  {
    if q != [] {
      RetainTwice(q[1..], at, now, later, span);
      var r := Retain(q[1..], at, now, span);
      var kept := Retain(q, at, now, span);
      if Elapsed(now, at(q[0])) < span {
        assert kept == [q[0]] + r;
        assert kept[0] == q[0] && kept[1..] == r;
      } else {
        assert kept == r;
      }
    }
  }

  // ----- The invariant -----

  ghost predicate Spaced(stamps: seq<nat>) {
    forall i :: 0 <= i && i + SYNC_RATE_BURST < |stamps| ==> stamps[i + SYNC_RATE_BURST] - stamps[i] >= SYNC_RATE_WINDOW
  }

  /** The stamps kept are the history without entries that have expired. */
  ghost predicate StampsTrack(kept: seq<nat>, all: seq<nat>, now: nat) {
    && Chronological(all, Instant, now) && Suffix(kept, all)
    && (forall i :: 0 <= i < |all| - |kept| ==> Elapsed(now, Instant(all[i])) >= SYNC_RATE_WINDOW)
  }

  /** The cache is the last sixteen entries of the history without the expired ones. */
  ghost predicate CacheTracks(kept: seq<Applied>, all: seq<Applied>, now: nat) {
    && Chronological(all, RecordedAt, now) && Suffix(kept, all) && |kept| <= APPLIED_SYNC_CACHE_MAX
    && (forall i :: 0 <= i < |all| - |kept| && i + APPLIED_SYNC_CACHE_MAX >= |all| ==> Elapsed(now, RecordedAt(all[i])) >= APPLIED_SYNC_CACHE_TTL)
  }

  ghost predicate Inv(tr: Trace, now: nat) {
    && StampsTrack(tr.ledger.stamps, tr.stamps, now)
    && CacheTracks(tr.ledger.applied, tr.applied, now)
    && Spaced(tr.stamps)
  }

  /** Retaining the young entries of a suffix drops exactly those of its entries that have expired. */
  lemma {:induction false} SuffixExpires<T>(q: seq<T>, all: seq<T>, at: T -> nat, now: nat, span: nat)
    requires Suffix(q, all) && Chronological(all, at, now)
    ensures var r := Retain(q, at, now, span);
            && Suffix(r, all) && |r| <= |q|
            && (forall i :: |all| - |q| <= i < |all| - |r| ==> Elapsed(now, at(all[i])) >= span)
            && (forall i :: |all| - |r| <= i < |all| ==> Elapsed(now, at(all[i])) < span)
  {
    var r := Retain(q, at, now, span);
    SuffixSorted(q, all, at, now);
    RetainSorted(q, at, now, span);
    SuffixTwice(r, q, all);
    forall i | |all| - |q| <= i < |all| ensures all[i] == q[i - (|all| - |q|)] {
      SuffixAt(q, all, i - (|all| - |q|));
    }
  }

  lemma StampsExpire(kept: seq<nat>, all: seq<nat>, now: nat, later: nat)
    requires StampsTrack(kept, all, now) && now <= later
    ensures StampsTrack(RecentStamps(kept, later), all, later)
    ensures forall i :: |all| - |RecentStamps(kept, later)| <= i < |all| ==> Elapsed(later, Instant(all[i])) < SYNC_RATE_WINDOW
  {
    SuffixExpires(kept, all, Instant, later, SYNC_RATE_WINDOW);
  }

  lemma CacheExpires(kept: seq<Applied>, all: seq<Applied>, now: nat, later: nat)
    requires CacheTracks(kept, all, now) && now <= later
    ensures CacheTracks(RecentApplied(kept, later), all, later)
    ensures forall i :: |all| - |RecentApplied(kept, later)| <= i < |all| ==> Elapsed(later, RecordedAt(all[i])) < APPLIED_SYNC_CACHE_TTL
  {
    SuffixExpires(kept, all, RecordedAt, later, APPLIED_SYNC_CACHE_TTL);
  }

  lemma {:induction false} SuffixAppend<T>(q: seq<T>, all: seq<T>, x: T)
    requires Suffix(q, all)
    ensures Suffix(q + [x], all + [x])
  {
    assert (all + [x])[|all| - |q|..] == all[|all| - |q|..] + [x];
  }

  lemma LastSuffix(q: seq<Applied>)
    ensures Suffix(LastEntries(q), q)
  {}

  lemma CacheGrows(kept: seq<Applied>, all: seq<Applied>, now: nat, a: Applied)
    requires CacheTracks(kept, all, now) && a.at == now
    ensures CacheTracks(LastEntries(kept + [a]), all + [a], now)
  {
    SuffixAppend(kept, all, a);
    LastSuffix(kept + [a]);
    SuffixTwice(LastEntries(kept + [a]), kept + [a], all + [a]);
  }

  lemma StampsGrow(kept: seq<nat>, all: seq<nat>, now: nat, stamp: nat)
    requires StampsTrack(kept, all, now) && now <= stamp && |kept| < SYNC_RATE_BURST && Spaced(all)
    ensures StampsTrack(kept + [stamp], all + [stamp], stamp) && Spaced(all + [stamp])
  {
    SuffixAppend(kept, all, stamp);
  }

  /** The ledger after the cache lookup and the budget check. */
  function Expired(l: Ledger, t: Times): Ledger {
    Ledger(RecentStamps(l.stamps, t.check), RecentApplied(l.applied, t.lookup))
  }

  lemma AcceptedLedger(l: Ledger, c: Call)
    requires ProcessSync(l, c.live, c.packet, c.times).2.Accepted?
    ensures |Expired(l, c.times).stamps| < SYNC_RATE_BURST
    ensures ProcessSync(l, c.live, c.packet, c.times).0 == RecordSync(Expired(l, c.times), c.packet.digest, c.times)
  {}

  lemma OtherLedger(l: Ledger, c: Call)
    requires !ProcessSync(l, c.live, c.packet, c.times).2.Accepted?
    ensures var l' := ProcessSync(l, c.live, c.packet, c.times).0;
            && (l'.stamps == l.stamps || l'.stamps == Expired(l, c.times).stamps)
            && (l'.applied == l.applied || l'.applied == Expired(l, c.times).applied)
  {}

  lemma StampsWait(kept: seq<nat>, all: seq<nat>, now: nat, later: nat)
    requires StampsTrack(kept, all, now) && now <= later
    ensures StampsTrack(kept, all, later)
  {}

  lemma CacheWaits(kept: seq<Applied>, all: seq<Applied>, now: nat, later: nat)
    requires CacheTracks(kept, all, now) && now <= later
    ensures CacheTracks(kept, all, later)
  {}

  lemma StepKeeps(tr: Trace, c: Call, now: nat)
    requires Inv(tr, now) && InOrder(now, c.times)
    ensures Inv(Step(tr, c), c.times.record)
  {
    var l, t := tr.ledger, c.times;
    var e := Expired(l, t);
    StampsExpire(l.stamps, tr.stamps, now, t.check);
    CacheExpires(l.applied, tr.applied, now, t.lookup);
    if ProcessSync(l, c.live, c.packet, t).2.Accepted? {
      AcceptedLedger(l, c);
      StampsGrow(e.stamps, tr.stamps, t.check, t.stamp);
      StampsWait(e.stamps + [t.stamp], tr.stamps + [t.stamp], t.stamp, t.record);
      CacheExpires(e.applied, tr.applied, t.lookup, t.record);
      CacheGrows(RecentApplied(e.applied, t.record), tr.applied, t.record, Applied(c.packet.digest, t.record));
    } else {
      OtherLedger(l, c);
      StampsWait(l.stamps, tr.stamps, now, t.record);
      StampsWait(e.stamps, tr.stamps, t.check, t.record);
      CacheWaits(l.applied, tr.applied, now, t.record);
      CacheWaits(e.applied, tr.applied, t.lookup, t.record);
    }
  }

  lemma {:induction false} RunKeeps(tr: Trace, calls: seq<Call>, now: nat) returns (end: nat)
    requires Inv(tr, now) && ClockRuns(now, calls)
    ensures Inv(Run(tr, calls), end)
    decreases |calls|
  {
    end := now;
    if calls != [] {
      StepKeeps(tr, calls[0], now);
      end := RunKeeps(Step(tr, calls[0]), calls[1..], calls[0].times.record);
    }
  }

  // ----- The promises -----

  /** In every run, an applied sync comes at least a window after the third one before it. */
  lemma BurstNeverExceeded(calls: seq<Call>)
    requires ClockRuns(0, calls)
    ensures Spaced(Run(EMPTY, calls).stamps)
  {
    var _ := RunKeeps(EMPTY, calls, 0);
  }

  /** No window of fifteen seconds, wherever it starts, holds more than three applied syncs. */
  lemma WindowHoldsThree(calls: seq<Call>, start: nat)
    requires ClockRuns(0, calls)
    ensures |Inside(Run(EMPTY, calls).stamps, start)| <= 3
  {
    var end := RunKeeps(EMPTY, calls, 0);
    AtMostThree(Run(EMPTY, calls).stamps, end, start);
  }

  /** The applied syncs whose stamp falls into the window beginning at start. */
  function Inside(stamps: seq<nat>, start: nat): set<nat> {
    set i: nat | i < |stamps| && start <= stamps[i] < start + 15_000_000_000
  }

  lemma AtMostThree(stamps: seq<nat>, end: nat, start: nat)
    requires Chronological(stamps, Instant, end) && Spaced(stamps)
    ensures |Inside(stamps, start)| <= SYNC_RATE_BURST
  {
    var first := FirstFrom(stamps, start);
    forall i | first + 3 <= i < |stamps| ensures stamps[i] >= start + SYNC_RATE_WINDOW {
      assert Instant(stamps[first]) <= Instant(stamps[i - 3]);
    }
    assert forall i :: i in Inside(stamps, start) ==> i in {first, first + 1, first + 2};
    CardLe(Inside(stamps, start), {first, first + 1, first + 2});
  }

  /** The index of the first stamp not before start. */
  function FirstFrom(stamps: seq<nat>, start: nat): (first: nat)
    ensures first <= |stamps| && (first < |stamps| ==> stamps[first] >= start)
    ensures forall i :: 0 <= i < first ==> stamps[i] < start
  {
    if stamps == [] || stamps[0] >= start then 0
    else
      var rest := stamps[1..];
      assert forall i :: 0 < i < |stamps| ==> stamps[i] == rest[i - 1];
      1 + FirstFrom(rest, start)
  }

  /** The pruned queue answers as the whole history would: limited exactly when the third last stamp is too young. */
  lemma LimitedExactly(tr: Trace, c: Call, now: nat)
    requires Inv(tr, now) && InOrder(now, c.times) && c.packet.msg.Some?
    requires !ProcessSync(tr.ledger, c.live, c.packet, c.times).2.Duplicate?
    ensures ProcessSync(tr.ledger, c.live, c.packet, c.times).2.Limited? <==>
            |tr.stamps| >= 3 && Elapsed(c.times.check, tr.stamps[|tr.stamps| - 3]) < 15_000_000_000
  {
    StampsExpire(tr.ledger.stamps, tr.stamps, now, c.times.check);
  }

  /** A re-sent packet is recognised exactly when its digest is young and among the last sixteen applied. */
  lemma RecognisedExactly(tr: Trace, c: Call, now: nat)
    requires Inv(tr, now) && InOrder(now, c.times) && c.packet.msg.Some?
    ensures ProcessSync(tr.ledger, c.live, c.packet, c.times).2.Duplicate? <==>
            exists i :: 0 <= i < |tr.applied| && i + 16 >= |tr.applied| && tr.applied[i].digest == c.packet.digest
                        && Elapsed(c.times.lookup, tr.applied[i].at) < 120_000_000_000
  {
    CacheExpires(tr.ledger.applied, tr.applied, now, c.times.lookup);
    var kept := RecentApplied(tr.ledger.applied, c.times.lookup);
    var d := |tr.applied| - |kept|;
    assert forall i :: 0 <= i < |kept| ==> kept[i] == tr.applied[d + i];
    forall i | d <= i < |tr.applied| && tr.applied[i].digest == c.packet.digest ensures Recognises(kept, c.packet.digest) {
      assert kept[i - d].digest == c.packet.digest;
    }
  }

  /** A packet that is not applied leaves both queues as they were, up to entries that have expired. */
  lemma RejectionInvisible(l: Ledger, live: Option<Session>, p: Packet, t: Times, later: nat)
    requires t.lookup <= t.check <= later && !ProcessSync(l, live, p, t).2.Accepted?
    ensures var l' := ProcessSync(l, live, p, t).0;
            && RecentStamps(l'.stamps, later) == RecentStamps(l.stamps, later)
            && RecentApplied(l'.applied, later) == RecentApplied(l.applied, later)
  {
    RetainTwice(l.stamps, Instant, t.check, later, SYNC_RATE_WINDOW);
    RetainTwice(l.applied, RecordedAt, t.lookup, later, APPLIED_SYNC_CACHE_TTL);
  }
}
