/**
 Processing a Synchronize packet: the per-peer burst budget, the cache of applied
 packets, and the three ways a packet meets the live ratchet.  Instants of the
 budget and the cache are in nanoseconds.
 */
module SyncSpec {
  import opened Symbolic
  import opened RatchetSpec
  import opened Receiving

  const SYNC_RATE_WINDOW := 15_000_000_000
  const SYNC_RATE_BURST := 3
  const APPLIED_SYNC_CACHE_MAX := 16
  const APPLIED_SYNC_CACHE_TTL := 120_000_000_000

  /** The digest of an authenticated, applied packet and the instant it was recorded. */
  datatype Applied = Applied(digest: nat, at: nat)

  /** What is remembered about one peer. */
  datatype Ledger = Ledger(stamps: seq<nat>, applied: seq<Applied>)

  /** The bytes on the wire: their digest, and the message they parse to, if any. */
  datatype Packet = Packet(digest: nat, msg: Option<Message>)

  /** The instants one call reads, in program order. */
  datatype Times = Times(lookup: nat, check: nat, resync: Clock, open: Clock, stamp: nat, record: nat)

  datatype Verdict =
    | Unreadable
    | Duplicate
    | Limited
    | Refused(error: Error)
    | Accepted(skipped: nat)

  function Instant(t: nat): nat { t }

  function RecordedAt(a: Applied): nat { a.at }

  /** The entries younger than span, in order. */
  function Retain<T>(q: seq<T>, at: T -> nat, now: nat, span: nat): seq<T> {
    if q == [] then []
    else (if Elapsed(now, at(q[0])) < span then [q[0]] else []) + Retain(q[1..], at, now, span)
  }

  function RecentStamps(stamps: seq<nat>, now: nat): seq<nat> {
    Retain(stamps, Instant, now, SYNC_RATE_WINDOW)
  }

  function RecentApplied(applied: seq<Applied>, now: nat): seq<Applied> {
    Retain(applied, RecordedAt, now, APPLIED_SYNC_CACHE_TTL)
  }

  predicate Recognises(applied: seq<Applied>, digest: nat) {
    exists i :: 0 <= i < |applied| && applied[i].digest == digest
  }

  function LastEntries(applied: seq<Applied>): seq<Applied> {
    if |applied| > APPLIED_SYNC_CACHE_MAX then applied[|applied| - APPLIED_SYNC_CACHE_MAX..] else applied
  }

  const X25519_KEY_LENGTH := 32

  predicate KeyFits(m: Message) {
    m.fields.x.Some? ==> |m.fields.x.value| == X25519_KEY_LENGTH
  }

  /** Open the packet the way its rekey fields call for. */
  ghost function Attempt(s: Session, m: Message, now: Clock): (Session, Result<Plaintext>) {
    if KeyFits(m) then Dispatch(s, m, now) else (s, Err(BadKeyLength))
  }

  predicate LargeGap(s: Session, n: Nonce) {
    n.gen == s.generation && Elapsed(n.num, s.recv.count) > s.maxSkip
  }

  predicate CrossesGeneration(s: Session, n: Nonce) {
    !LargeGap(s, n) && n.gen >= SaturatingInc(s.generation)
  }

  /** A packet beyond the skip window or from a later generation is opened on a clone. */
  predicate OnTrial(s: Session, n: Nonce) {
    LargeGap(s, n) || CrossesGeneration(s, n)
  }

  /** Open on the clone and keep it only for a Synchronize naming its own position. */
  ghost function CommitTrial(s: Session, trial: Session, m: Message, now: Clock, skipped: nat): (Session, Result<nat>) {
    var (after, r) := Attempt(trial, m, now);
    if r.Err? then (s, Err(r.error))
    else if r.value != Synchronize(m.nonce.num) then (s, Err(NotSynchronize))
    else (after, Ok(skipped))
  }

  ghost function ApplySync(s: Session, m: Message, t: Times): (Session, Result<nat>) {
    if LargeGap(s, m.nonce) then
      var (trial, jumped) := Resync(s, m.nonce.num, t.resync);
      if jumped.Err? then (s, Err(jumped.error)) else CommitTrial(s, trial, m, t.open, jumped.value)
    else if CrossesGeneration(s, m.nonce) then
      if Attempt(s, m, t.open).1.Err? then (s, Err(CrossGeneration)) else CommitTrial(s, s, m, t.open, 0)
    else
      var (after, r) := Attempt(s, m, t.open);
      (after, if r.Err? then Err(r.error) else if r.value != Synchronize(m.nonce.num) then Err(NotSynchronize) else Ok(0))
  }

  function RecordSync(l: Ledger, digest: nat, t: Times): Ledger {
    Ledger(l.stamps + [t.stamp], LastEntries(RecentApplied(l.applied, t.record) + [Applied(digest, t.record)]))
  }

  /** The cache is consulted first, then the budget, and only then the session. */
  ghost function ProcessSync(l: Ledger, live: Option<Session>, p: Packet, t: Times): (Ledger, Option<Session>, Verdict) {
    if p.msg.None? then (l, live, Unreadable) else
    var l1 := l.(applied := RecentApplied(l.applied, t.lookup));
    if Recognises(l1.applied, p.digest) then (l1, live, Duplicate) else
    var l2 := l1.(stamps := RecentStamps(l1.stamps, t.check));
    if |l2.stamps| >= SYNC_RATE_BURST then (l2, live, Limited) else
    if live.None? then (l2, live, Refused(NoSession)) else
    var (s, r) := ApplySync(live.value, p.msg.value, t);
    if r.Err? then (l2, Some(s), Refused(r.error)) else (RecordSync(l2, p.digest, t), Some(s), Accepted(r.value))
  }
}
