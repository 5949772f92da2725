/**
 Synchronize processing in the form the code base has it: per-peer queues that are
 pruned and pushed, and a live session that is replaced by its trial clone.
 */
module Sync {
  import opened Symbolic
  import opened RatchetSpec
  import opened SyncSpec
  import opened Receiving
  import opened Ratchet

  method RetainYoung<T>(q: seq<T>, at: T -> nat, now: nat, span: nat) returns (r: seq<T>)
    ensures r == Retain(q, at, now, span)
  {
    r := [];
    for i := 0 to |q|
      invariant r + Retain(q[i..], at, now, span) == Retain(q, at, now, span)
    {
      assert q[i..][0] == q[i] && q[i..][1..] == q[i + 1..];
      if Elapsed(now, at(q[i])) < span { r := r + [q[i]]; }
    }
  }

  method FindDigest(applied: seq<Applied>, digest: nat) returns (found: bool)
    ensures found == Recognises(applied, digest)
  {
    for i := 0 to |applied|
      invariant forall j :: 0 <= j < i ==> applied[j].digest != digest
    {
      if applied[i].digest == digest { return true; }
    }
    found := false;
  }

  method PopOldest(applied: seq<Applied>) returns (r: seq<Applied>)
    ensures r == LastEntries(applied)
  {
    r := applied;
    while |r| > APPLIED_SYNC_CACHE_MAX
      invariant |r| <= |applied| && r == applied[|applied| - |r|..]
      invariant |applied| > APPLIED_SYNC_CACHE_MAX ==> |r| >= APPLIED_SYNC_CACHE_MAX
      invariant |applied| <= APPLIED_SYNC_CACHE_MAX ==> r == applied
    {
      r := r[1..];
    }
  }

  /** Open a packet on a session, with or without rekey fields. */
  method OpenPacket(ratchet: DoubleRatchetState, m: Message, now: Clock) returns (r: Result<Plaintext>)
    modifies ratchet
    ensures (ratchet.View(), r) == Attempt(old(ratchet.View()), m, now)
  {
    if m.fields == NO_FIELDS {
      r := ratchet.RatchetDecrypt(m.nonce, m.body);
    } else {
      if m.fields.x.Some? && |m.fields.x.value| != X25519_KEY_LENGTH {
        return Err(BadKeyLength);
      }
      var outcome := ratchet.RatchetDecryptWithRekey(m, now);
      r := if outcome.Err? then Err(outcome.error) else Ok(outcome.value.0);
    }
  }

  /** Open on the clone; only a verified Synchronize makes the clone the live session. */
  method OpenOnTrial(ratchet: DoubleRatchetState, trial: DoubleRatchetState, m: Message, now: Clock, skipped: nat)
    returns (unopened: bool, r: Result<nat>)
    requires trial != ratchet
    requires trial.interval == ratchet.interval && trial.maxSkip == ratchet.maxSkip && trial.maxHistory == ratchet.maxHistory
    modifies ratchet, trial
    ensures (ratchet.View(), r) == CommitTrial(old(ratchet.View()), old(trial.View()), m, now, skipped)
    ensures unopened == Attempt(old(trial.View()), m, now).1.Err?
  {
    var text := OpenPacket(trial, m, now);
    if text.Err? {
      return true, Err(text.error);
    }
    if text.value != Synchronize(m.nonce.num) {
      return false, Err(NotSynchronize);
    }
    ratchet.Replace(trial.View());
    return false, Ok(skipped);
  }

  method ApplySynchronize(ratchet: DoubleRatchetState, m: Message, t: Times) returns (r: Result<nat>)
    modifies ratchet
    ensures (ratchet.View(), r) == ApplySync(old(ratchet.View()), m, t)
  {
    ghost var s := ratchet.View();
    var n := m.nonce;
    var gap := Elapsed(n.num, ratchet.recv.count);
    if n.gen == ratchet.generation && gap > ratchet.maxSkip {
      var trial := new DoubleRatchetState.Clone(ratchet);
      var skipped := trial.ResyncReceivingChain(n.num, t.resync);
      if skipped.Err? {
        return Err(skipped.error);
      }
      var _, committed := OpenOnTrial(ratchet, trial, m, t.open, skipped.value);
      r := committed;
    } else if n.gen >= SaturatingInc(ratchet.generation) {
      var trial := new DoubleRatchetState.Clone(ratchet);
      var unopened, committed := OpenOnTrial(ratchet, trial, m, t.open, 0);
      r := if unopened then Err(CrossGeneration) else committed;
    } else {
      var text := OpenPacket(ratchet, m, t.open);
      if text.Err? {
        return Err(text.error);
      }
      r := if text.value != Synchronize(n.num) then Err(NotSynchronize) else Ok(0);
    }
  }

  /** The queues of all peers, and the sessions they guard. */
  class SyncGate {
    var lastSyncAt: map<Peer, seq<nat>>
    var appliedSyncs: map<Peer, seq<Applied>>
    const sessions: map<Peer, DoubleRatchetState>

    constructor (sessions: map<Peer, DoubleRatchetState>)
      ensures this.sessions == sessions && forall p :: LedgerOf(p) == Ledger([], [])
    {
      lastSyncAt, appliedSyncs, this.sessions := map[], map[], sessions;
    }

    ghost function LedgerOf(peer: Peer): Ledger
      reads this
    {
      Ledger(if peer in lastSyncAt then lastSyncAt[peer] else [], if peer in appliedSyncs then appliedSyncs[peer] else [])
    }

    ghost function LiveOf(peer: Peer): Option<Session>
      reads if peer in sessions then {sessions[peer]} else {}
    {
      if peer in sessions then Some(sessions[peer].View()) else None
    }

    method AlreadyApplied(peer: Peer, digest: nat, now: nat) returns (known: bool)
      modifies `appliedSyncs
      ensures LedgerOf(peer) == old(LedgerOf(peer)).(applied := RecentApplied(old(LedgerOf(peer)).applied, now))
      ensures forall q :: q != peer ==> LedgerOf(q) == old(LedgerOf(q))
      ensures known == Recognises(LedgerOf(peer).applied, digest)
    {
      var queue := RetainYoung(if peer in appliedSyncs then appliedSyncs[peer] else [], RecordedAt, now, APPLIED_SYNC_CACHE_TTL);
      appliedSyncs := appliedSyncs[peer := queue];
      known := FindDigest(queue, digest);
    }

    method RecordAppliedSync(peer: Peer, digest: nat, now: nat)
      modifies `appliedSyncs
      ensures LedgerOf(peer).stamps == old(LedgerOf(peer)).stamps
      ensures LedgerOf(peer).applied == LastEntries(RecentApplied(old(LedgerOf(peer)).applied, now) + [Applied(digest, now)])
      ensures forall q :: q != peer ==> LedgerOf(q) == old(LedgerOf(q))
    {
      var queue := RetainYoung(if peer in appliedSyncs then appliedSyncs[peer] else [], RecordedAt, now, APPLIED_SYNC_CACHE_TTL);
      queue := PopOldest(queue + [Applied(digest, now)]);
      appliedSyncs := appliedSyncs[peer := queue];
    }

    method SyncRateLimited(peer: Peer, now: nat) returns (limited: bool)
      modifies `lastSyncAt
      ensures LedgerOf(peer) == old(LedgerOf(peer)).(stamps := RecentStamps(old(LedgerOf(peer)).stamps, now))
      ensures forall q :: q != peer ==> LedgerOf(q) == old(LedgerOf(q))
      ensures limited == (|LedgerOf(peer).stamps| >= SYNC_RATE_BURST)
    {
      var queue := RetainYoung(if peer in lastSyncAt then lastSyncAt[peer] else [], Instant, now, SYNC_RATE_WINDOW);
      lastSyncAt := lastSyncAt[peer := queue];
      limited := |queue| >= SYNC_RATE_BURST;
    }

    method StampSync(peer: Peer, now: nat)
      modifies `lastSyncAt
      ensures LedgerOf(peer) == old(LedgerOf(peer)).(stamps := old(LedgerOf(peer)).stamps + [now])
      ensures forall q :: q != peer ==> LedgerOf(q) == old(LedgerOf(q))
    {
      var queue := if peer in lastSyncAt then lastSyncAt[peer] else [];
      lastSyncAt := lastSyncAt[peer := queue + [now]];
    }

    /** Only the ledger and the session of the named peer can change. */
    method ProcessSynchronize(peer: Peer, p: Packet, t: Times) returns (v: Verdict)
      modifies this, if peer in sessions then {sessions[peer]} else {}
      ensures (LedgerOf(peer), LiveOf(peer), v) == ProcessSync(old(LedgerOf(peer)), old(LiveOf(peer)), p, t)
      ensures forall q :: q != peer ==> LedgerOf(q) == old(LedgerOf(q))
    {
      if p.msg.None? {
        return Unreadable;
      }
      var known := AlreadyApplied(peer, p.digest, t.lookup);
      if known {
        return Duplicate;
      }
      var limited := SyncRateLimited(peer, t.check);
      if limited {
        return Limited;
      }
      if peer !in sessions {
        return Refused(NoSession);
      }
      var result := ApplySynchronize(sessions[peer], p.msg.value, t);
      if result.Err? {
        return Refused(result.error);
      }
      StampSync(peer, t.stamp);
      RecordAppliedSync(peer, p.digest, t.record);
      v := Accepted(result.value);
    }
  }
}
