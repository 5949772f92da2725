/**
 The double ratchet as functions on session values: what every operation does to
 the whole state.  `Ratchet.DoubleRatchetState` is the imperative form, proved
 equal to these functions; the theorems are about them.
 */
module RatchetSpec {
  import opened Symbolic

  const GEN_MAX := 0xFFFF_FFFF
  const SEEN_SET_MAX := 4096
  const REKEY_RETRY_TTL := 15
  const INCOMING_REKEY_TTL := 60
  const SYNC_MAX_GAP := 1000
  const SYNC_MAX_CUMULATIVE := 20000

  // ----- State -----

  datatype Chain = Chain(key: ChainKey, count: nat)

  /** The retained receiving chain of the generation before the current one. */
  datatype Previous = Previous(key: ChainKey, anchor: nat, gen: nat)

  datatype Proposal = Proposal(root: Root, send: ChainKey, recv: ChainKey, peer: PublicKey)

  /** The incoming slot with its carrier and its two first-seen stamps. */
  datatype Incoming = Incoming(
    slot: Option<Proposal>, carrierSeq: Option<nat>, carrierGen: Option<nat>,
    attachedUnix: Option<nat>, attachedMono: Option<nat>)

  datatype Outgoing = Outgoing(root: Root, send: ChainKey, recv: ChainKey, pair: KeyPair, payload: Payload)

  datatype Clock = Clock(mono: nat, unix: nat)

  /** An unacknowledged offer: where it rides now, when it was last and first attached. */
  datatype Carrier = Carrier(at: nat, attached: Clock, first: Clock, payload: Payload)

  type SkipKeys = map<Nonce, MsgKey>

  datatype Session = Session(
    root: Root, send: Chain, recv: Chain,
    pair: KeyPair, peer: Option<PublicKey>,
    interval: nat, generation: nat,
    previous: Option<Previous>, seen: set<Nonce>, prevHighest: Option<nat>,
    incoming: Incoming, outgoing: Option<Outgoing>,
    skip: SkipKeys, maxSkip: nat,
    history: seq<KeyPair>, maxHistory: nat,
    queue: seq<Carrier>, ackSeq: Option<nat>, resyncTotal: nat)

  const EMPTY_INCOMING := Incoming(None, None, None, None, None)

  /** A fresh session over a pairing root. */
  function Fresh(root: Root, isInitiator: bool, pair: KeyPair, peer: Option<PublicKey>): Session {
    var (send, recv) :=
      if isInitiator then (InitiatorSend(root), InitiatorRecv(root)) else (InitiatorRecv(root), InitiatorSend(root));
    Session(root, Chain(send, 0), Chain(recv, 0), pair, peer, 100, 0, None, {}, None,
            EMPTY_INCOMING, None, map[], 100, [], 3, [], None, 0)
  }

  // ----- Skip-key cache -----

  /** The message keys of positions base..target of a chain whose key sits at base. */
  function SkipRange(ck: ChainKey, base: nat, target: nat, gen: nat): SkipKeys {
    map i | base <= i < target :: Nonce(gen, i) := MsgKey(Advance(ck, i - base))
  }

  predicate Newer(a: Nonce, b: Nonce) {
    a.gen > b.gen || (a.gen == b.gen && a.num > b.num)
  }

  function NewerThan(keys: set<Nonce>, n: Nonce): set<Nonce> {
    set k | k in keys && Newer(k, n)
  }

  /** Keys of the current and the previous generation. */
  function RecentOnly(store: SkipKeys, gen: nat): SkipKeys {
    map n | n in store && (n.gen == gen || (gen > 0 && n.gen == gen - 1)) :: store[n]
  }

  /** The newest `budget` keys. */
  function Newest(store: SkipKeys, budget: nat): SkipKeys {
    map n | n in store && |NewerThan(store.Keys, n)| < budget :: store[n]
  }

  function Prune(store: SkipKeys, gen: nat, budget: nat): SkipKeys {
    Newest(RecentOnly(store, gen), budget)
  }

  // ----- Replay window -----

  function FromGeneration(seen: set<Nonce>, gen: nat): set<Nonce> {
    set n | n in seen && n.gen >= gen
  }

  /** Whole generations are dropped, oldest first, until the cap holds. */
  function Capped(seen: set<Nonce>): set<Nonce> {
    set n | n in seen && |FromGeneration(seen, n.gen)| <= SEEN_SET_MAX
  }

  function RecordDelivered(seen: set<Nonce>, n: Nonce): set<Nonce> {
    Capped(seen + {n})
  }

  /** The sliding window kept after a delivery on the current chain. */
  function Window(seen: set<Nonce>, gen: nat, count: nat, span: nat): set<Nonce> {
    set n | n in seen && n.gen == gen && n.num + span >= count
  }

  ghost predicate IsHighest(seen: set<Nonce>, gen: nat, h: nat) {
    Nonce(gen, h) in seen && forall n :: n in seen && n.gen == gen ==> n.num <= h
  }

  ghost function HighestSeen(seen: set<Nonce>, gen: nat): Option<nat> {
    if h :| IsHighest(seen, gen, h) then Some(h) else None
  }

  function MaxOption(a: Option<nat>, b: nat): Option<nat> {
    Some(if a.Some? && a.value > b then a.value else b)
  }

  // ----- Rekey commits and cancellations -----

  /** The highest delivered position of a generation, frozen at the commit that leaves it. */
  ghost function DeliveredMark(recv: Chain, seen: set<Nonce>, gen: nat): Option<nat> {
    var highest := HighestSeen(seen, gen);
    if recv.count > 0 then MaxOption(highest, recv.count - 1) else highest
  }

  function SaturatingInc(gen: nat): nat {
    if gen >= GEN_MAX then gen else gen + 1
  }

  function CancelOutgoing(s: Session): Session {
    s.(outgoing := None, queue := [])
  }

  /** Clears the slot and every stamp except the monotonic one. */
  function ClearedIncoming(i: Incoming): Incoming {
    Incoming(None, None, None, None, i.attachedMono)
  }

  function CancelIncoming(s: Session): Session {
    s.(incoming := ClearedIncoming(s.incoming))
  }

  /** Enter the next generation: retain the old receiving chain, start the new chains at position 0. */
  ghost function Adopt(s: Session, root: Root, send: ChainKey, recv: ChainKey): Session {
    s.(previous := Some(Previous(s.recv.key, s.recv.count, s.generation)),
       prevHighest := DeliveredMark(s.recv, s.seen, s.generation),
       root := root, send := Chain(send, 0), recv := Chain(recv, 0),
       generation := SaturatingInc(s.generation), seen := {})
  }

  /** Adopt the peer's proposal. */
  ghost function CommitIncoming(s: Session): Session
    requires s.incoming.slot.Some?
  {
    var p := s.incoming.slot.value;
    Adopt(s, p.root, p.send, p.recv).(
      peer := Some(p.peer),
      ackSeq := if s.ackSeq.None? then s.incoming.carrierSeq else s.ackSeq,
      incoming := ClearedIncoming(s.incoming))
  }

  function Trim(pairs: seq<KeyPair>, bound: nat): seq<KeyPair> {
    if |pairs| <= bound then pairs else pairs[|pairs| - bound..]
  }

  /** Adopt our own acknowledged proposal. */
  ghost function CommitOutgoing(s: Session): Session
    requires s.outgoing.Some?
  {
    var p := s.outgoing.value;
    Adopt(s, p.root, p.send, p.recv).(
      pair := p.pair, history := Trim(s.history + [s.pair], s.maxHistory), outgoing := None, queue := [])
  }

  /** An acknowledgement naming the carrier of the queue commits our proposal. */
  ghost function ProcessAck(s: Session, at: nat): (Session, bool) {
    if exists i :: 0 <= i < |s.queue| && s.queue[i].at == at then
      (if s.outgoing.Some? then CommitOutgoing(s) else s.(queue := []), true)
    else
      (s, false)
  }

  function TakeAck(s: Session): (Session, Option<nat>) {
    (s.(ackSeq := None, incoming := s.incoming.(carrierSeq := None)), s.ackSeq)
  }

  // ----- Sending -----

  /** Time, a fresh key pair, and the outcome of the encapsulation, for one call. */
  datatype Env = Env(now: Clock, newPair: KeyPair, eph: Option<nat>)

  function Elapsed(now: nat, since: nat): nat {
    if now > since then now - since else 0
  }

  function Max(a: nat, b: nat): nat {
    if a > b then a else b
  }

  function Age(now: Clock, since: Clock): nat {
    Max(Elapsed(now.mono, since.mono), Elapsed(now.unix, since.unix))
  }

  predicate RetryDue(c: Carrier, now: Clock) {
    Age(now, c.attached) >= REKEY_RETRY_TTL
  }

  function FreshCarriers(queue: seq<Carrier>, now: Clock): seq<Carrier> {
    if queue == [] then []
    else (if RetryDue(queue[0], now) then [] else [queue[0]]) + FreshCarriers(queue[1..], now)
  }

  function FirstDue(queue: seq<Carrier>, now: Clock): Option<Carrier> {
    if queue == [] then None
    else if RetryDue(queue[0], now) then Some(queue[0])
    else FirstDue(queue[1..], now)
  }

  predicate Boundary(s: Session, num: nat) {
    num > 0 && s.interval > 0 && num % s.interval == 0
  }

  function MakeOutgoing(root: Root, peer: PublicKey, newPair: KeyPair, eph: nat): Outgoing {
    var ss := Shared(peer, eph);
    Outgoing(NextRoot(root, ss), RekeySend(root, ss), RekeyRecv(root, ss), newPair,
             Payload(newPair.pk, Encapsulation(peer, eph)))
  }

  /** What one send attaches: the state after queue and slot bookkeeping, or a failed encapsulation. */
  function Attach(s: Session, num: nat, env: Env): (Session, Result<Option<Payload>>) {
    var due := FirstDue(s.queue, env.now);
    var kept := FreshCarriers(s.queue, env.now);
    if due.Some? then
      (s.(queue := kept + [due.value.(at := num, attached := env.now)]), Ok(Some(due.value.payload)))
    else if Boundary(s, num) && kept == [] && s.outgoing.None? && s.incoming.slot.None? && s.peer.Some? then
      if env.eph.None? then (s.(queue := kept), Err(EncapsulationFailed))
      else
        var out := MakeOutgoing(s.root, s.peer.value, env.newPair, env.eph.value);
        (s.(outgoing := Some(out), queue := kept + [Carrier(num, env.now, env.now, out.payload)]), Ok(Some(out.payload)))
    else
      (s.(queue := kept), Ok(None))
  }

  function Encrypt(s: Session, text: Plaintext, env: Env): (Session, Result<Message>) {
    var num := s.send.count;
    var s1 := s.(send := s.send.(count := num + 1));
    if s.generation == GEN_MAX then (s1, Err(GenerationExhausted))
    else
      var nonce := Nonce(s.generation, num);
      var (s2, attached) := Attach(s1, num, env);
      if attached.Err? then (s2, Err(attached.error))
      else
        var body := Sealed(MsgKey(s.send.key), nonce, attached.value, text);
        (s2.(send := Chain(Next(s.send.key), num + 1)), Ok(Message(nonce, body, FieldsOf(attached.value))))
  }

  /** An explicit rekey request.  The offer carries the peer's own public key back to it. */
  function DhRekey(s: Session, peer: PublicKey, env: Env): (Session, Result<KemCiphertext>) {
    if s.outgoing.Some? || s.incoming.slot.Some? then (s, Err(ProposalPending))
    else if env.eph.None? then (s, Err(EncapsulationFailed))
    else
      var out := MakeOutgoing(s.root, peer, env.newPair, env.eph.value);
      var offer := Payload(peer, out.payload.ct);
      (s.(outgoing := Some(out.(payload := offer)), queue := s.queue + [Carrier(0, env.now, env.now, offer)]),
       Ok(offer.ct))
  }

  // ----- Receiving -----

  /** How a message was delivered. */
  datatype Outcome = Committed | Skipped | ProposalDerived

  function Validate(s: Session, n: Nonce): Result<()> {
    if s.generation == GEN_MAX then Err(GenerationExhausted)
    else if !(n.gen == s.generation || n.gen == s.generation + 1
              || (s.previous.Some? && n.gen == s.previous.value.gen)) then Err(GenerationMismatch)
    else if n in s.seen then Err(Replay)
    else Ok(())
  }

  /** A cached key: consumed only after it opens the message. */
  function FromCache(s: Session, n: Nonce, body: Cipher, aad: Option<Payload>): (Session, Result<Plaintext>)
    requires n in s.skip
  {
    var text := Open(s.skip[n], n, body, aad);
    if text.None? then (s, Err(AuthenticationFailed))
    else (s.(skip := s.skip - {n}, seen := RecordDelivered(s.seen, n)), Ok(text.value))
  }

  /** The verdict of a retained chain on a message: the text, the next chain key, the keys passed over. */
  function PreviousDecision(p: Previous, highest: Option<nat>, seen: set<Nonce>, n: Nonce, body: Cipher, aad: Option<Payload>, maxSkip: nat)
    : Result<(Plaintext, ChainKey, SkipKeys)>
  {
    if n in seen then Err(Replay)
    else if n.num < p.anchor then Err(Desynchronized)
    else if highest.Some? && n.num <= highest.value then Err(Replay)
    else if n.num - p.anchor > maxSkip then Err(Desynchronized)
    else
      var target := Advance(p.key, n.num - p.anchor);
      match Open(MsgKey(target), n, body, aad)
      case None => Err(AuthenticationFailed)
      case Some(text) => Ok((text, Next(target), SkipRange(p.key, p.anchor, n.num, p.gen)))
  }

  /** The retained chain of the previous generation; the flag says the key came from the cache. */
  function FromPrevious(s: Session, n: Nonce, body: Cipher, aad: Option<Payload>): (Session, Result<(Plaintext, bool)>)
    requires s.previous.Some? && n.gen == s.previous.value.gen
  {
    var p := s.previous.value;
    if n in s.skip then
      var (s1, r) := FromCache(s, n, body, aad);
      if r.Err? then (s, Err(r.error))
      else (s1.(prevHighest := MaxOption(s.prevHighest, n.num)), Ok((r.value, true)))
    else
      match PreviousDecision(p, s.prevHighest, s.seen, n, body, aad, s.maxSkip)
      case Err(e) => (s, Err(e))
      case Ok((text, next, passed)) =>
        (s.(previous := Some(Previous(next, n.num + 1, p.gen)),
            prevHighest := MaxOption(s.prevHighest, n.num),
            skip := Prune(s.skip + passed, s.generation, 2 * s.maxSkip),
            seen := RecordDelivered(s.seen, n)),
         Ok((text, false)))
  }

  /** The chain key a message number selects; numbers below the counter all select the current key. */
  function Target(c: Chain, num: nat): ChainKey {
    Advance(c.key, if num > c.count then num - c.count else 0)
  }

  function FromChain(s: Session, n: Nonce, body: Cipher, aad: Option<Payload>): (Session, Result<Plaintext>) {
    if n.num > s.recv.count && n.num - s.recv.count > s.maxSkip then (s, Err(Desynchronized))
    else
      var target := Target(s.recv, n.num);
      var text := Open(MsgKey(target), n, body, aad);
      if text.None? then (s, Err(AuthenticationFailed))
      else
        var seen := RecordDelivered(s.seen, Nonce(s.generation, n.num));
        (s.(recv := Chain(Next(target), n.num + 1),
            seen := Window(seen, s.generation, n.num + 1, 2 * s.maxSkip),
            skip := Prune(s.skip + SkipRange(s.recv.key, s.recv.count, n.num, s.generation), s.generation, 2 * s.maxSkip)),
         Ok(text.value))
  }

  /** The plaintext under the pending chain, anchored at position 0. */
  function PendingText(s: Session, n: Nonce, body: Cipher, aad: Option<Payload>): Option<Plaintext> {
    if s.incoming.slot.None? || n.num > s.maxSkip then None
    else Open(MsgKey(Advance(s.incoming.slot.value.recv, n.num)), n, body, aad)
  }

  /** Commit the pending proposal and move its chain past position num. */
  ghost function CommitAt(s: Session, num: nat): Session
    requires s.incoming.slot.Some?
  {
    var s1 := CommitIncoming(if s.outgoing.Some? then CancelOutgoing(s) else s);
    s1.(recv := Chain(Next(Advance(s1.recv.key, num)), num + 1),
        skip := Prune(s1.skip + SkipRange(s1.recv.key, 0, num, s1.generation), s1.generation, 2 * s1.maxSkip),
        seen := RecordDelivered(s1.seen, Nonce(s1.generation, num)))
  }

  /** The non-rekey path. */
  ghost function Decrypt(s: Session, n: Nonce, body: Cipher): (Session, Result<Plaintext>) {
    var v := Validate(s, n);
    if v.Err? then (s, Err(v.error))
    else if s.previous.Some? && n.gen == s.previous.value.gen then
      var (s1, r) := FromPrevious(s, n, body, None);
      (s1, if r.Err? then Err(r.error) else Ok(r.value.0))
    else if n in s.skip then FromCache(s, n, body, None)
    else
      var (s1, r) := FromChain(s, n, body, None);
      if r.Ok? then (s1, r)
      else
        var text := PendingText(s, n, body, None);
        if text.Some? then (CommitAt(s, n.num), Ok(text.value)) else (s, r)
  }

  function FirstDecapsulation(ct: KemCiphertext, pairs: seq<KeyPair>): Option<Secret> {
    if pairs == [] then None
    else
      var ss := Decapsulate(ct, pairs[0]);
      if ss.Some? then ss else FirstDecapsulation(ct, pairs[1..])
  }

  predicate DropsCarrier(s: Session, n: Nonce) {
    n.gen < s.generation || (s.incoming.carrierGen.Some? && n.gen < s.incoming.carrierGen.value)
  }

  function StampIfNone(stamp: Option<nat>, now: nat): Option<nat> {
    if stamp.None? then Some(now) else stamp
  }

  /** Phase 1: derive the incoming proposal, with the peer's chains swapped. */
  function Stage(s: Session, n: Nonce, offer: Payload, now: Clock): (Session, Result<()>) {
    if DropsCarrier(s, n) then (s, Ok(()))
    else
      var ss := FirstDecapsulation(offer.ct, [s.pair] + s.history);
      if ss.None? then (s, Err(DecapsulationFailed))
      else
        var supersedes := s.incoming.carrierGen.Some? && s.incoming.carrierGen.value < n.gen;
        var unix := if supersedes then None else s.incoming.attachedUnix;
        var mono := if supersedes then None else s.incoming.attachedMono;
        var p := Proposal(NextRoot(s.root, ss.value), RekeyRecv(s.root, ss.value), RekeySend(s.root, ss.value), offer.pk);
        (s.(incoming := Incoming(Some(p), Some(n.num), Some(n.gen), StampIfNone(unix, now.unix), StampIfNone(mono, now.mono))),
         Ok(()))
  }

  predicate LexLess(a: Bytes, b: Bytes) {
    if b == [] then false
    else if a == [] then true
    else a[0] < b[0] || (a[0] == b[0] && LexLess(a[1..], b[1..]))
  }

  /** Lexicographic order on (X25519 half, ML-KEM half). */
  predicate PkLess(a: PublicKey, b: PublicKey) {
    LexLess(a.x, b.x) || (a.x == b.x && LexLess(a.m, b.m))
  }

  predicate PeerWins(s: Session)
    requires s.outgoing.Some?
  {
    s.incoming.slot.Some? && PkLess(s.outgoing.value.payload.pk, s.incoming.slot.value.peer)
  }

  /** Settle a two-sided race after an authenticated carrier, and queue the acknowledgement. */
  function ResolveRace(s: Session, num: nat, hasPayload: bool): Session {
    if !hasPayload then s
    else if s.outgoing.Some? && !PeerWins(s) then CancelIncoming(s)
    else (if s.outgoing.Some? then CancelOutgoing(s) else s).(ackSeq := Some(num))
  }

  /** Phase 2: cached key, current chain, pending chain, in that order. */
  ghost function AfterStaging(s: Session, n: Nonce, body: Cipher, aad: Option<Payload>): (Session, Result<(Plaintext, Outcome)>) {
    if n in s.skip then
      var (s1, r) := FromCache(s, n, body, aad);
      if r.Err? then (s, Err(r.error))
      else (ResolveRace(s1, n.num, aad.Some?), Ok((r.value, if aad.Some? then ProposalDerived else Skipped)))
    else
      var (s1, r) := FromChain(s, n, body, aad);
      if r.Ok? then (ResolveRace(s1, n.num, aad.Some?), Ok((r.value, if aad.Some? then ProposalDerived else Committed)))
      else
        var text := PendingText(s, n, body, aad);
        if text.Some? then (CommitAt(s, n.num), Ok((text.value, Committed))) else (s, Err(r.error))
  }

  /** The rekey-aware path. */
  ghost function DecryptRekey(s: Session, m: Message, now: Clock): (Session, Result<(Plaintext, Outcome)>) {
    var n := m.nonce;
    var v := Validate(s, n);
    if v.Err? then (s, Err(v.error)) else
    var aad := BuildAad(m.fields);
    if aad.Err? then (s, Err(aad.error)) else
    if s.previous.Some? && n.gen == s.previous.value.gen then
      var (s1, r) := FromPrevious(s, n, m.body, aad.value);
      (s1, if r.Err? then Err(r.error) else Ok((r.value.0, if r.value.1 then Skipped else Committed)))
    else
      var (s1, staged) := if aad.value.Some? then Stage(s, n, aad.value.value, now) else (s, Ok(()));
      if staged.Err? then (s1, Err(staged.error)) else AfterStaging(s1, n, m.body, aad.value)
  }

  // ----- Resynchronisation -----

  predicate IncomingStale(i: Incoming, now: Clock) {
    Max(if i.attachedUnix.Some? then Elapsed(now.unix, i.attachedUnix.value) else 0,
        if i.attachedMono.Some? then Elapsed(now.mono, i.attachedMono.value) else 0) >= INCOMING_REKEY_TTL
  }

  predicate OutgoingStale(queue: seq<Carrier>, now: Clock) {
    queue != [] && forall i :: 0 <= i < |queue| ==> Age(now, queue[i].first) >= INCOMING_REKEY_TTL
  }

  /** Move the receiving chain forward to target, within both budgets, caching the keys in between. */
  function Jump(s: Session, target: nat): (Session, Result<nat>) {
    var cur := s.recv.count;
    if target <= cur then (s, Err(StaleTarget))
    else if target - cur > SYNC_MAX_GAP then (s, Err(GapTooLarge))
    else if s.resyncTotal + (target - cur) > SYNC_MAX_CUMULATIVE then (s, Err(BudgetExhausted))
    else
      (s.(recv := Chain(Advance(s.recv.key, target - cur), target),
          resyncTotal := s.resyncTotal + (target - cur),
          skip := Prune(s.skip + SkipRange(s.recv.key, cur, target, s.generation), s.generation, 2 * s.maxSkip)),
       Ok(target - cur))
  }

  /** An explicit resync: stale proposals are evicted, fresh ones refuse it. */
  function Resync(s: Session, target: nat, now: Clock): (Session, Result<nat>) {
    if s.incoming.slot.Some? && !IncomingStale(s.incoming, now) then (s, Err(ProposalPending)) else
    var s1 := if s.incoming.slot.Some? then CancelIncoming(s) else s;
    if s1.outgoing.Some? && !OutgoingStale(s1.queue, now) then (s1, Err(ProposalPending)) else
    Jump(if s1.outgoing.Some? then CancelOutgoing(s1) else s1, target)
  }
}
