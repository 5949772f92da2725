/**
 One generation of one direction refines the pure chain.  A sender seals message i,
 plain or a rekey carrier, under the key of position i; the network loses, reorders,
 duplicates and relabels messages, strips and swaps their rekey fields, and injects
 forgeries; in between, late messages of earlier generations arrive and the receiver
 sends messages of its own.  In every such run the receiver's key is the chain stepped `recv.count`
 times, every cached key is the key of its position, every delivery yields the text
 sent at that number, and nothing in the window is lost.
 */
module ChainRefinement {
  import opened Symbolic
  import opened RatchetSpec
  import opened Receiving
  import opened SkipCache

  /** One direction of one generation: its first chain key, and the text and the offer of every message sent on it. */
  datatype Stream = Stream(seed: ChainKey, gen: nat, texts: nat -> Plaintext, offers: nat -> Option<Payload>)

  function SealedAt(w: Stream, i: nat): Cipher {
    Sealed(MsgKey(Advance(w.seed, i)), Nonce(w.gen, i), w.offers(i), w.texts(i))
  }

  /** Message i as it was sent. */
  function Sent(w: Stream, i: nat): Message {
    Message(Nonce(w.gen, i), SealedAt(w, i), FieldsOf(w.offers(i)))
  }

  /**
   Whatever happens to the receiver: the body of message i or a forgery arrives, under
   any header and with any rekey fields; any message of an earlier generation arrives,
   whoever sealed it; the receiver sends; it hands out its acknowledgement.
   */
  datatype Arrival =
    | Copy(i: nat, header: Nonce, fields: Fields, now: Clock)
    | Junk(id: nat, header: Nonce, fields: Fields, now: Clock)
    | Older(msg: Message, now: Clock)
    | OwnSend(text: Plaintext, env: Env)
    | HandOut

  function Arriving(w: Stream, a: Arrival): Message
    requires a.Copy? || a.Junk?
  {
    Message(a.header, if a.Copy? then SealedAt(w, a.i) else Forged(a.id), a.fields)
  }

  /** A delivery of this stream. */
  datatype Delivery = Delivery(num: nat, text: Plaintext)

  /** The receiver after one arrival, and the message of this generation it delivered, if any. */
  ghost function Meets(w: Stream, s: Session, a: Arrival): (Session, Option<Delivery>) {
    match a
    case Older(m, now) => (Dispatch(s, m, now).0, None)
    case OwnSend(text, env) => (Encrypt(s, text, env).0, None)
    case HandOut => (TakeAck(s).0, None)
    case _ =>
      var (s', r) := Dispatch(s, Arriving(w, a), a.now);
      (s', if r.Ok? then Some(Delivery(a.header.num, r.value)) else None)
  }

  /** Earlier generations really are earlier. */
  predicate WellPlaced(w: Stream, arrivals: seq<Arrival>) {
    forall i :: 0 <= i < |arrivals| && arrivals[i].Older? ==> arrivals[i].msg.nonce.gen < w.gen
  }

  predicate Genuine(w: Stream, a: Arrival) {
    a.Copy? && a.header == Nonce(w.gen, a.i) && a.fields == FieldsOf(w.offers(a.i))
  }

  ghost predicate CacheAligned(w: Stream, s: Session, delivered: set<nat>) {
    forall n :: n in s.skip ==>
      n.gen <= w.gen &&
      (n.gen == w.gen ==> n.num < s.recv.count && n.num !in delivered && s.skip[n] == MsgKey(Advance(w.seed, n.num)))
  }

  /** Undelivered positions among the last 2 * max_skip are all cached. */
  ghost predicate NothingLost(w: Stream, s: Session, delivered: set<nat>) {
    forall i :: 0 <= i < s.recv.count && i !in delivered && i + 2 * s.maxSkip >= s.recv.count ==> Nonce(w.gen, i) in s.skip
  }

  /** The chain of the stream is neither the pending one nor one that could be staged now. */
  predicate SlotApart(w: Stream, s: Session) {
    && !(Seed(w.seed).RekeySend? && Seed(w.seed).root == s.root)
    && (s.incoming.slot.Some? ==> Seed(s.incoming.slot.value.recv) != Seed(w.seed))
  }

  ghost predicate Aligned(w: Stream, s: Session, delivered: set<nat>) {
    && s.generation == w.gen < GEN_MAX && SlotApart(w, s)
    && (s.previous.Some? ==> s.previous.value.gen < w.gen)
    && s.recv.key == Advance(w.seed, s.recv.count)
    && (forall i :: i in delivered ==> i < s.recv.count)
    && (forall n :: n in s.seen && n.gen == w.gen ==> n.num in delivered)
    && CacheAligned(w, s, delivered)
    && NothingLost(w, s, delivered)
  }

  // ----- Where aligned sessions come from -----

  /** A fresh session is aligned with its peer's sending chain. */
  lemma FreshAligned(w: Stream, root: Root, isInitiator: bool, pair: KeyPair, peer: Option<PublicKey>)
    requires w.gen == 0 && w.seed == if isInitiator then InitiatorRecv(root) else InitiatorSend(root)
    ensures Aligned(w, Fresh(root, isInitiator, pair, peer), {})
  {}

  /** Nothing of a later generation is remembered, and the staged proposals are what staging makes them. */
  ghost predicate BeforeCommit(s: Session) {
    && s.generation < GEN_MAX - 1 && (forall n :: n in s.skip ==> n.gen <= s.generation)
    && (s.outgoing.Some? ==> s.outgoing.value.recv.RekeyRecv?)
    && (s.incoming.slot.Some? ==>
          var p := s.incoming.slot.value; p.recv.RekeySend? && p.root == NextRoot(p.recv.root, p.recv.ss))
  }

  /** Entering a generation on our own acknowledged offer starts aligned. */
  lemma OwnCommitAligned(w: Stream, s: Session)
    requires BeforeCommit(s) && s.outgoing.Some? && w.gen == s.generation + 1 && w.seed == s.outgoing.value.recv
    ensures Aligned(w, CommitOutgoing(s), {})
  {}

  /** Entering a generation on message num of the peer's new chain leaves exactly that message delivered. */
  lemma PeerCommitAligned(w: Stream, s: Session, num: nat)
    requires BeforeCommit(s) && s.incoming.slot.Some? && num <= s.maxSkip
    requires w.gen == s.generation + 1 && w.seed == s.incoming.slot.value.recv
    ensures Aligned(w, CommitAt(s, num), {num})
  {
    CommitShape(s, num);
    LandedCache(w, s.skip, CommitAt(s, num), num);
  }

  lemma LandedCache(w: Stream, skip: SkipKeys, s: Session, num: nat)
    requires forall n :: n in skip ==> n.gen < w.gen
    requires s.recv.count == num + 1 && s.skip == Prune(skip + SkipRange(w.seed, 0, num, w.gen), w.gen, 2 * s.maxSkip)
    requires num <= s.maxSkip
    ensures CacheAligned(w, s, {num}) && NothingLost(w, s, {num})
  {
    RangeOnChain(w.seed, Chain(w.seed, 0), num, w.gen);
    var store := skip + SkipRange(w.seed, 0, num, w.gen);
    forall i | 0 <= i < num ensures Nonce(w.gen, i) in s.skip {
      KeptByPrune(store, Nonce(w.gen, i), num, 2 * s.maxSkip);
    }
  }

  // ----- One arrival -----

  /** The receiver accepts copy i exactly when it is not remembered as seen and its key is at hand. */
  ghost predicate Acceptable(w: Stream, s: Session, i: nat) {
    && Nonce(w.gen, i) !in s.seen
    && (Nonce(w.gen, i) in s.skip || s.recv.count <= i <= s.recv.count + s.maxSkip)
  }

  /** Its offer, if it carries one, is dropped as outdated or can be decapsulated. */
  predicate Stageable(w: Stream, s: Session, i: nat) {
    w.offers(i).Some? ==> DropsCarrier(s, Nonce(w.gen, i)) || w.offers(i).value.ct.Encapsulation?
  }

  /** Alignment says nothing about the slot but that it is another chain's. */
  lemma SlotIrrelevant(w: Stream, s: Session, s': Session, delivered: set<nat>)
    requires Aligned(w, s, delivered)
    requires s' == s.(incoming := s'.incoming, outgoing := s'.outgoing, queue := s'.queue, ackSeq := s'.ackSeq, send := s'.send)
    requires s'.incoming.slot == s.incoming.slot || s'.incoming.slot.None?
             || (s'.incoming.slot.value.recv.RekeySend? && s'.incoming.slot.value.recv.root == s.root)
    ensures Aligned(w, s', delivered)
  {}

  /** A message that is not what it claims to be opens under no key: at most the slot changes. */
  lemma MisfitFails(w: Stream, s: Session, delivered: set<nat>, m: Message, now: Clock)
    requires Aligned(w, s, delivered) && Misfit(m)
    ensures var (s', r) := Dispatch(s, m, now);
            r.Err? && s' == s.(incoming := s'.incoming) && Aligned(w, s', delivered)
  {
    MisfitRefused(s, m, now);
    SlotIrrelevant(w, s, Dispatch(s, m, now).0, delivered);
  }

  /** A copy below the counter whose key is gone meets a different chain key and fails. */
  lemma LateCopyFails(w: Stream, s: Session, delivered: set<nat>, i: nat)
    requires Aligned(w, s, delivered) && Nonce(w.gen, i) !in s.skip
    requires !(s.recv.count <= i <= s.recv.count + s.maxSkip)
    ensures AfterStaging(s, Nonce(w.gen, i), SealedAt(w, i), w.offers(i)).1.Err?
    ensures AfterStaging(s, Nonce(w.gen, i), SealedAt(w, i), w.offers(i)).0 == s
  {
    AdvanceInjective(w.seed, i, s.recv.count);
    if s.incoming.slot.Some? {
      SeedPosAdvance(s.incoming.slot.value.recv, i);
      SeedPosAdvance(w.seed, i);
    }
  }

  lemma RaceAligned(w: Stream, s: Session, delivered: set<nat>, num: nat, carries: bool)
    requires Aligned(w, s, delivered)
    ensures Aligned(w, ResolveRace(s, num, carries), delivered)
  {
    SlotIrrelevant(w, s, ResolveRace(s, num, carries), delivered);
  }

  lemma CachedCopy(w: Stream, s: Session, delivered: set<nat>, i: nat)
    requires Aligned(w, s, delivered) && Nonce(w.gen, i) in s.skip
    ensures var (s', r) := AfterStaging(s, Nonce(w.gen, i), SealedAt(w, i), w.offers(i));
            r.Ok? && r.value.0 == w.texts(i) && Aligned(w, s', delivered + {i})
  {
    var n := Nonce(w.gen, i);
    var s1 := FromCache(s, n, SealedAt(w, i), w.offers(i)).0;
    assert Aligned(w, s1, delivered + {i});
    RaceAligned(w, s1, delivered + {i}, i, w.offers(i).Some?);
  }

  /** The state after the chain delivers copy i. */
  function Stepped(w: Stream, s: Session, i: nat): Session {
    s.(recv := Chain(Advance(w.seed, i + 1), i + 1),
       seen := Window(RecordDelivered(s.seen, Nonce(w.gen, i)), w.gen, i + 1, 2 * s.maxSkip),
       skip := Prune(s.skip + SkipRange(s.recv.key, s.recv.count, i, w.gen), w.gen, 2 * s.maxSkip))
  }

  lemma ChainCopy(w: Stream, s: Session, delivered: set<nat>, i: nat)
    requires Aligned(w, s, delivered) && s.recv.count <= i <= s.recv.count + s.maxSkip
    ensures var (s', r) := AfterStaging(s, Nonce(w.gen, i), SealedAt(w, i), w.offers(i));
            r.Ok? && r.value.0 == w.texts(i) && Aligned(w, s', delivered + {i}) && s'.recv.count == i + 1
  {
    ChainStep(w, s, i);
    assert Nonce(w.gen, i) !in s.skip;
    SteppedCache(w, s, delivered, i);
    assert Aligned(w, Stepped(w, s, i), delivered + {i});
    RaceAligned(w, Stepped(w, s, i), delivered + {i}, i, w.offers(i).Some?);
  }

  lemma ChainStep(w: Stream, s: Session, i: nat)
    requires s.generation == w.gen && s.recv.key == Advance(w.seed, s.recv.count)
    requires s.recv.count <= i <= s.recv.count + s.maxSkip
    ensures FromChain(s, Nonce(w.gen, i), SealedAt(w, i), w.offers(i)) == (Stepped(w, s, i), Ok(w.texts(i)))
  {
    AdvanceAdd(w.seed, s.recv.count, i - s.recv.count);
    assert Target(s.recv, i) == Advance(w.seed, i);
  }

  lemma SteppedCache(w: Stream, s: Session, delivered: set<nat>, i: nat)
    requires s.recv.key == Advance(w.seed, s.recv.count) && s.recv.count <= i
    requires forall j :: j in delivered ==> j < s.recv.count
    requires CacheAligned(w, s, delivered) && NothingLost(w, s, delivered)
    ensures CacheAligned(w, Stepped(w, s, i), delivered + {i})
    ensures NothingLost(w, Stepped(w, s, i), delivered + {i})
  {
    SteppedAligned(w, s, delivered, i);
    forall j | 0 <= j < i && j !in delivered && j + 2 * s.maxSkip >= i + 1
      ensures Nonce(w.gen, j) in Stepped(w, s, i).skip
    {
      StillCached(w, s, delivered, i, j);
    }
  }

  lemma SteppedAligned(w: Stream, s: Session, delivered: set<nat>, i: nat)
    requires s.recv.key == Advance(w.seed, s.recv.count) && s.recv.count <= i
    requires forall j :: j in delivered ==> j < s.recv.count
    requires CacheAligned(w, s, delivered)
    ensures CacheAligned(w, Stepped(w, s, i), delivered + {i})
  {
    RangeOnChain(w.seed, s.recv, i, w.gen);
  }

  lemma StillCached(w: Stream, s: Session, delivered: set<nat>, i: nat, j: nat)
    requires s.recv.key == Advance(w.seed, s.recv.count) && s.recv.count <= i
    requires CacheAligned(w, s, delivered) && NothingLost(w, s, delivered)
    requires j < i && j !in delivered && j + 2 * s.maxSkip >= i + 1
    ensures Nonce(w.gen, j) in Stepped(w, s, i).skip
  {
    var range := SkipRange(s.recv.key, s.recv.count, i, w.gen);
    RangeOnChain(w.seed, s.recv, i, w.gen);
    assert j >= s.recv.count ==> Nonce(w.gen, j) in range;
    KeptByPrune(s.skip + range, Nonce(w.gen, j), i, 2 * s.maxSkip);
  }

  // ----- The exact acceptance condition -----

  /** Opening copy i after Phase 1, in any aligned session. */
  lemma OpenExact(w: Stream, s: Session, delivered: set<nat>, i: nat)
    requires Aligned(w, s, delivered)
    ensures var (s', r) := AfterStaging(s, Nonce(w.gen, i), SealedAt(w, i), w.offers(i));
            && (r.Ok? <==> Nonce(w.gen, i) in s.skip || s.recv.count <= i <= s.recv.count + s.maxSkip)
            && (r.Ok? ==> r.value.0 == w.texts(i) && Aligned(w, s', delivered + {i}))
            && (r.Err? ==> s' == s)
  {
    if Nonce(w.gen, i) in s.skip {
      CachedCopy(w, s, delivered, i);
    } else if s.recv.count <= i <= s.recv.count + s.maxSkip {
      ChainCopy(w, s, delivered, i);
    } else {
      LateCopyFails(w, s, delivered, i);
    }
  }

  /**
   Message i as sent, plain or a carrier, whatever is staged at the receiver: it is
   accepted if and only if its number is not remembered, its key is at hand and its
   offer can be staged.  A refusal changes at most the slot.
   */
  lemma ArrivalExact(w: Stream, s: Session, delivered: set<nat>, i: nat, now: Clock)
    requires Aligned(w, s, delivered)
    ensures var (s', r) := Dispatch(s, Sent(w, i), now);
            && (r.Ok? <==> Acceptable(w, s, i) && Stageable(w, s, i))
            && (r.Ok? ==> r.value == w.texts(i) && i !in delivered && Aligned(w, s', delivered + {i}))
            && (r.Err? ==> s' == s.(incoming := s'.incoming) && Aligned(w, s', delivered))
  {
    var n, aad := Nonce(w.gen, i), w.offers(i);
    FieldsOfAad(aad);
    DispatchUnified(s, Sent(w, i), aad, now);
    StagedSlotOnly(s, n, aad, now);
    var s1 := Staged(s, n, aad, now).0;
    SlotIrrelevant(w, s, s1, delivered);
    OpenExact(w, s1, delivered, i);
  }

  /** Why it was refused: a remembered number, a malformed offer, too far ahead, or a key that is gone. */
  lemma ArrivalError(w: Stream, s: Session, delivered: set<nat>, i: nat, now: Clock)
    requires Aligned(w, s, delivered) && Dispatch(s, Sent(w, i), now).1.Err?
    ensures Dispatch(s, Sent(w, i), now).1 == Err(
              if Nonce(w.gen, i) in s.seen then Replay
              else if !Stageable(w, s, i) then DecapsulationFailed
              else if i > s.recv.count + s.maxSkip then Desynchronized
              else AuthenticationFailed)
  {
    var n, aad := Nonce(w.gen, i), w.offers(i);
    FieldsOfAad(aad);
    RefusalError(s, Sent(w, i), aad, now);
    ArrivalExact(w, s, delivered, i, now);
    StagedSlotOnly(s, n, aad, now);
    var s1 := Staged(s, n, aad, now).0;
    SlotIrrelevant(w, s, s1, delivered);
    if n !in s.seen && Stageable(w, s, i) { OpenError(w, s1, delivered, i); }
  }

  lemma OpenError(w: Stream, s: Session, delivered: set<nat>, i: nat)
    requires Aligned(w, s, delivered) && Nonce(w.gen, i) !in s.skip && !(s.recv.count <= i <= s.recv.count + s.maxSkip)
    ensures AfterStaging(s, Nonce(w.gen, i), SealedAt(w, i), w.offers(i)).1 ==
            Err(if i > s.recv.count + s.maxSkip then Desynchronized else AuthenticationFailed)
  {
    LateCopyFails(w, s, delivered, i);
  }

  /** No message of the window is refused: undelivered, at most 2 * max_skip old, at most max_skip ahead. */
  lemma WindowAlwaysAccepted(w: Stream, s: Session, delivered: set<nat>, i: nat, now: Clock)
    requires Aligned(w, s, delivered) && i !in delivered
    requires i + 2 * s.maxSkip >= s.recv.count && i <= s.recv.count + s.maxSkip
    requires w.offers(i).Some? ==> w.offers(i).value.ct.Encapsulation?
    ensures Dispatch(s, Sent(w, i), now).1 == Ok(w.texts(i))
    ensures Aligned(w, Dispatch(s, Sent(w, i), now).0, delivered + {i})
  {
    ArrivalExact(w, s, delivered, i, now);
  }

  // ----- In between -----

  /** A late message of an earlier generation, accepted or not, takes no key of this one. */
  lemma OlderKeepsAligned(w: Stream, s: Session, delivered: set<nat>, m: Message, now: Clock)
    requires Aligned(w, s, delivered) && m.nonce.gen < w.gen
    ensures Aligned(w, Dispatch(s, m, now).0, delivered)
  {
    if BuildAad(m.fields).Err? {
      PartialFieldsRefused(s, m, now);
    } else {
      var aad := BuildAad(m.fields).value;
      DispatchUnified(s, m, aad, now);
      if s.previous.Some? && m.nonce.gen == s.previous.value.gen { PreviousKeepsAligned(w, s, delivered, m.nonce, m.body, aad); }
    }
  }

  lemma PreviousKeepsAligned(w: Stream, s: Session, delivered: set<nat>, n: Nonce, body: Cipher, aad: Option<Payload>)
    requires Aligned(w, s, delivered) && s.previous.Some? && n.gen == s.previous.value.gen
    ensures Aligned(w, FromPrevious(s, n, body, aad).0, delivered)
  {
    var p, s' := s.previous.value, FromPrevious(s, n, body, aad).0;
    if n !in s.skip && s' != s { PrunedAligned(w, s, delivered, SkipRange(p.key, p.anchor, n.num, p.gen), s'); }
  }

  lemma PrunedAligned(w: Stream, s: Session, delivered: set<nat>, passed: SkipKeys, s': Session)
    requires CacheAligned(w, s, delivered) && NothingLost(w, s, delivered) && forall n :: n in passed ==> n.gen < w.gen
    requires s'.recv == s.recv && s'.maxSkip == s.maxSkip && s'.skip == Prune(s.skip + passed, w.gen, 2 * s.maxSkip)
    ensures CacheAligned(w, s', delivered) && NothingLost(w, s', delivered)
  {
    forall i | 0 <= i < s.recv.count && i !in delivered && i + 2 * s.maxSkip >= s.recv.count ensures Nonce(w.gen, i) in s'.skip {
      KeptByPrune(s.skip + passed, Nonce(w.gen, i), s.recv.count, 2 * s.maxSkip);
    }
  }

  /** Nor do the receiver's own sends, with or without an offer, and its acknowledgements. */
  lemma OwnStepsKeepAligned(w: Stream, s: Session, delivered: set<nat>, text: Plaintext, env: Env)
    requires Aligned(w, s, delivered)
    ensures Aligned(w, Encrypt(s, text, env).0, delivered) && Aligned(w, TakeAck(s).0, delivered)
  {
    SlotIrrelevant(w, s, Encrypt(s, text, env).0, delivered);
    SlotIrrelevant(w, s, TakeAck(s).0, delivered);
  }

  // ----- Whole runs -----

  /** The numbers delivered over a run, in order of delivery. */
  ghost function Numbers(w: Stream, s: Session, arrivals: seq<Arrival>): seq<nat>
    decreases |arrivals|
  {
    if arrivals == [] then []
    else
      var (s', d) := Meets(w, s, arrivals[0]);
      (if d.Some? then [d.value.num] else []) + Numbers(w, s', arrivals[1..])
  }

  ghost function After(w: Stream, s: Session, arrivals: seq<Arrival>): Session
    decreases |arrivals|
  {
    if arrivals == [] then s else After(w, Meets(w, s, arrivals[0]).0, arrivals[1..])
  }

  /** Every delivery of the run is a message as it was sent and yields the text sent at its number. */
  ghost predicate TextsRight(w: Stream, s: Session, arrivals: seq<Arrival>)
    decreases |arrivals|
  {
    arrivals != [] ==>
      var a := arrivals[0];
      var (s', d) := Meets(w, s, a);
      && (d.Some? ==> Genuine(w, a) && d.value == Delivery(a.i, w.texts(a.i)))
      && TextsRight(w, s', arrivals[1..])
  }

  lemma OneArrival(w: Stream, s: Session, delivered: set<nat>, a: Arrival)
    requires Aligned(w, s, delivered) && (a.Older? ==> a.msg.nonce.gen < w.gen)
    ensures var (s', d) := Meets(w, s, a);
            && (d.None? ==> Aligned(w, s', delivered))
            && (d.Some? ==>
                  Genuine(w, a) && a.i !in delivered && d.value == Delivery(a.i, w.texts(a.i)) && Aligned(w, s', delivered + {a.i}))
  {
    match a
    case Older(m, now) => OlderKeepsAligned(w, s, delivered, m, now);
    case OwnSend(text, env) => OwnStepsKeepAligned(w, s, delivered, text, env);
    case HandOut => SlotIrrelevant(w, s, TakeAck(s).0, delivered);
    case Junk(id, header, fields, now) => MisfitFails(w, s, delivered, Arriving(w, a), now);
    case Copy(i, header, fields, now) =>
      OnlyFields(fields, w.offers(i));
      if Genuine(w, a) { ArrivalExact(w, s, delivered, i, now); } else { MisfitFails(w, s, delivered, Arriving(w, a), now); }
  }

  lemma OnlyFields(f: Fields, aad: Option<Payload>)
    ensures BuildAad(f) == Ok(aad) <==> f == FieldsOf(aad)
  {}

  /**
   Refinement of the pure chain over every run: the receiver stays aligned, each
   number is delivered at most once, and each delivery is the text sent there.
   */
  lemma {:induction false} RunRefinesChain(w: Stream, s: Session, delivered: set<nat>, arrivals: seq<Arrival>)
    requires Aligned(w, s, delivered) && WellPlaced(w, arrivals)
    ensures var numbers := Numbers(w, s, arrivals);
            && Aligned(w, After(w, s, arrivals), delivered + set i | i in numbers)
            && (forall i :: i in numbers ==> i !in delivered)
            && (forall p, q :: 0 <= p < q < |numbers| ==> numbers[p] != numbers[q])
            && TextsRight(w, s, arrivals)
    decreases |arrivals|
  {
    if arrivals == [] {
      assert delivered + (set i | i in Numbers(w, s, arrivals)) == delivered;
    } else {
      var a := arrivals[0];
      var (s', d) := Meets(w, s, a);
      OneArrival(w, s, delivered, a);
      var delivered' := if d.Some? then delivered + {d.value.num} else delivered;
      RunRefinesChain(w, s', delivered', arrivals[1..]);
      OneMoreDelivery(if d.Some? then [d.value.num] else [], Numbers(w, s', arrivals[1..]), delivered, delivered');
    }
  }

  lemma OneMoreDelivery(first: seq<nat>, rest: seq<nat>, delivered: set<nat>, delivered': set<nat>)
    requires |first| <= 1 && (forall i :: i in first ==> i !in delivered)
    requires delivered' == delivered + set i | i in first
    requires forall i :: i in rest ==> i !in delivered'
    requires forall p, q :: 0 <= p < q < |rest| ==> rest[p] != rest[q]
    ensures delivered + (set i | i in first + rest) == delivered' + (set i | i in rest)
    ensures forall i :: i in first + rest ==> i !in delivered
    ensures forall p, q :: 0 <= p < q < |first + rest| ==> (first + rest)[p] != (first + rest)[q]
  {
    forall p, q | 0 <= p < q < |first + rest| ensures (first + rest)[p] != (first + rest)[q] {
      assert rest[q - |first|] in rest && (first + rest)[q] == rest[q - |first|];
      assert p < |first| ==> first[p] in first && first[p] in delivered';
    }
  }

  // ----- A peer that reuses a number -----

  /**
   The number of a delivered message, sealed anew under the key at the head of the
   chain, is delivered a second time if and only if the window has forgotten it, and
   the counter then falls back behind it.
   */
  lemma ReusedNumberExactly(w: Stream, s: Session, delivered: set<nat>, i: nat, text: Plaintext, now: Clock)
    requires Aligned(w, s, delivered) && i in delivered
    ensures var n := Nonce(w.gen, i);
            var (s', r) := Dispatch(s, Message(n, Sealed(MsgKey(s.recv.key), n, None, text), NO_FIELDS), now);
            && (r == Ok(text) <==> n !in s.seen)
            && (r.Ok? ==> s'.recv == Chain(Next(s.recv.key), i + 1) && s'.recv.count <= s.recv.count)
            && (r.Err? ==> s' == s)
  {}
}
