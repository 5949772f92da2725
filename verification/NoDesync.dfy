/**
 When two peers keep each other.  Peer a sends and proposes rekeys, peer b receives.
 The network loses, reorders and duplicates a's messages and injects strays: forged
 bodies, and genuine ones under other headers or with other rekey fields.  Offers are
 staged before anything is authenticated, so a stray carrier can replace the one b
 holds: `StrayExactly` says exactly which strays keep the link.  With those, and with
 acknowledgements that arrive once b has staged a's offer, the two stay linked over any
 number of generations.
 */
module NoDesync {
  import opened Symbolic
  import opened RatchetSpec
  import opened ConfirmQueue
  import opened SkipCache
  import opened Receiving
  import opened RekeySlots

  // ----- Receiving one stream -----

  /** The receiving side of s sits on the chain that starts at seed. */
  ghost predicate OnChain(s: Session, seed: ChainKey) {
    && s.recv.key == Advance(seed, s.recv.count)
    && (s.previous.Some? ==> s.previous.value.gen < s.generation)
    && (forall n :: n in s.skip ==>
          n.gen <= s.generation &&
          (n.gen == s.generation ==> n.num < s.recv.count && s.skip[n] == MsgKey(Advance(seed, n.num))))
    && (forall n :: n in s.seen ==> n.gen <= s.generation && (n.gen == s.generation ==> n.num < s.recv.count))
  }

  /** The fields a receive leaves alone unless it commits a rekey. */
  ghost predicate SameLink(s: Session, s': Session) {
    && s'.root == s.root && s'.generation == s.generation && s'.pair == s.pair && s'.maxSkip == s.maxSkip
    && s'.outgoing == s.outgoing && s'.incoming == s.incoming
  }

  lemma CacheStaysOnChain(s: Session, seed: ChainKey, n: Nonce, body: Cipher, aad: Option<Payload>)
    requires OnChain(s, seed) && n in s.skip && (n.gen == s.generation ==> n.num < s.recv.count)
    ensures OnChain(FromCache(s, n, body, aad).0, seed) && SameLink(s, FromCache(s, n, body, aad).0)
    ensures FromCache(s, n, body, aad).0.recv == s.recv
  {}

  lemma PreviousStaysOnChain(s: Session, seed: ChainKey, n: Nonce, body: Cipher, aad: Option<Payload>)
    requires OnChain(s, seed) && s.previous.Some? && n.gen == s.previous.value.gen
    ensures OnChain(FromPrevious(s, n, body, aad).0, seed) && SameLink(s, FromPrevious(s, n, body, aad).0)
    ensures FromPrevious(s, n, body, aad).0.recv == s.recv
  {}

  /** A message of the stream opens on the chain exactly at or above the counter, within max_skip. */
  lemma ChainAcceptsExactly(s: Session, seed: ChainKey, num: nat, body: Cipher, aad: Option<Payload>)
    requires OnChain(s, seed)
    requires body.Sealed? && body.key == MsgKey(Advance(seed, num)) && body.nonce == Nonce(s.generation, num) && body.aad == aad
    ensures var (s', r) := FromChain(s, Nonce(s.generation, num), body, aad);
            && (r.Ok? <==> s.recv.count <= num <= s.recv.count + s.maxSkip)
            && (r.Ok? ==> r.value == body.text && OnChain(s', seed) && SameLink(s, s') && s'.recv.count == num + 1)
            && (r.Err? ==> s' == s)
  {
    ChainOpensExactly(s, seed, num, body, aad);
    if s.recv.count <= num <= s.recv.count + s.maxSkip {
      ChainLandsOnChain(s, seed, num, FromChain(s, Nonce(s.generation, num), body, aad).0);
    }
  }

  lemma ChainOpensExactly(s: Session, seed: ChainKey, num: nat, body: Cipher, aad: Option<Payload>)
    requires s.recv.key == Advance(seed, s.recv.count)
    requires body.Sealed? && body.key == MsgKey(Advance(seed, num)) && body.nonce == Nonce(s.generation, num) && body.aad == aad
    ensures var (s', r) := FromChain(s, Nonce(s.generation, num), body, aad);
            && (r.Ok? <==> s.recv.count <= num <= s.recv.count + s.maxSkip)
            && (r.Err? ==> s' == s)
            && (r.Ok? ==>
                  && r.value == body.text
                  && s' == s.(recv := Chain(Advance(seed, num + 1), num + 1), seen := s'.seen, skip := s'.skip)
                  && s'.seen <= s.seen + {Nonce(s.generation, num)}
                  && s'.skip == Prune(s.skip + SkipRange(s.recv.key, s.recv.count, num, s.generation), s.generation, 2 * s.maxSkip))
  {
    AdvanceInjective(seed, num, s.recv.count);
    if s.recv.count <= num {
      AdvanceAdd(seed, s.recv.count, num - s.recv.count);
      assert Target(s.recv, num) == Advance(seed, num);
    }
  }

  lemma ChainLandsOnChain(s: Session, seed: ChainKey, num: nat, s': Session)
    requires OnChain(s, seed) && s.recv.count <= num
    requires s'.recv == Chain(Advance(seed, num + 1), num + 1)
    requires s'.previous == s.previous && s'.generation == s.generation
    requires s'.seen <= s.seen + {Nonce(s.generation, num)}
    requires s'.skip == Prune(s.skip + SkipRange(s.recv.key, s.recv.count, num, s.generation), s.generation, 2 * s.maxSkip)
    ensures OnChain(s', seed)
  {
    RangeOnChain(seed, s.recv, num, s.generation);
  }

  /** A message of another chain never opens on this one. */
  lemma OtherChainFails(s: Session, seed: ChainKey, n: Nonce, body: Cipher, aad: Option<Payload>, other: ChainKey)
    requires OnChain(s, seed) && Seed(seed) != Seed(other)
    requires body.Sealed? && Seed(body.key.chain) == Seed(other)
    ensures FromChain(s, n, body, aad).1.Err? && FromChain(s, n, body, aad).0 == s
  {
    SeedPosAdvance(seed, s.recv.count);
    SeedPosAdvance(s.recv.key, if n.num > s.recv.count then n.num - s.recv.count else 0);
  }

  /** Committing at num puts the receiver at num + 1 of the pending chain, earlier positions cached. */
  lemma CommitLandsOnChain(s: Session, seed: ChainKey, num: nat)
    requires OnChain(s, seed) && s.incoming.slot.Some? && s.generation < GEN_MAX && num <= s.maxSkip
    ensures var p, s' := s.incoming.slot.value, CommitAt(s, num);
            && OnChain(s', p.recv) && s'.recv.count == num + 1 && s'.generation == s.generation + 1
            && s'.root == p.root && s'.send == Chain(p.send, 0) && s'.peer == Some(p.peer)
            && s'.incoming.slot.None? && s'.incoming.carrierGen.None? && s'.outgoing.None?
            && s'.pair == s.pair && s'.maxSkip == s.maxSkip
            && (forall i :: 0 <= i < num ==> Nonce(s'.generation, i) in s'.skip)
  {
    CommitShape(s, num);
    LandedOnChain(s.skip, CommitAt(s, num), s.incoming.slot.value.recv, num);
  }

  lemma LandedOnChain(skip: SkipKeys, s: Session, seed: ChainKey, num: nat)
    requires forall n :: n in skip ==> n.gen < s.generation
    requires s.previous.Some? && s.previous.value.gen < s.generation && num <= s.maxSkip
    requires s.recv == Chain(Advance(seed, num + 1), num + 1) && s.seen <= {Nonce(s.generation, num)}
    requires s.skip == Prune(skip + SkipRange(seed, 0, num, s.generation), s.generation, 2 * s.maxSkip)
    ensures OnChain(s, seed) && forall i :: 0 <= i < num ==> Nonce(s.generation, i) in s.skip
  {
    RangeOnChain(seed, Chain(seed, 0), num, s.generation);
    var store := skip + SkipRange(seed, 0, num, s.generation);
    forall i | 0 <= i < num ensures Nonce(s.generation, i) in s.skip {
      KeptByPrune(store, Nonce(s.generation, i), num, 2 * s.maxSkip);
    }
  }

  // ----- The two-party system -----

  /** Root and sending chain of one generation of a. */
  datatype Era = Era(root: Root, seed: ChainKey)

  /** An offer of a, with the randomness of its encapsulation. */
  datatype Offer = Offer(payload: Payload, eph: nat)

  /** Both sessions, everything a ever sent, and the history that explains it. */
  datatype System = System(a: Session, b: Session, log: seq<Message>, eras: seq<Era>, offers: map<nat, Offer>)

  function SecretOf(sys: System, h: nat): Secret
    requires h in sys.offers
  {
    Shared(sys.b.pair.pk, sys.offers[h].eph)
  }

  /** The proposal b derives from the offer of generation h. */
  function Derived(sys: System, h: nat): Proposal
    requires h in sys.offers && h < |sys.eras|
  {
    var root, ss := sys.eras[h].root, SecretOf(sys, h);
    Proposal(NextRoot(root, ss), RekeyRecv(root, ss), RekeySend(root, ss), sys.offers[h].payload.pk)
  }

  ghost predicate HistoryOk(sys: System) {
    && |sys.eras| == sys.a.generation + 1 && sys.a.generation <= GEN_MAX
    && (forall h :: 0 <= h < |sys.eras| ==>
          !sys.eras[h].seed.Next? && SeedDepth(sys.eras[h].seed) < RootDepth(sys.eras[h].root))
    && (forall h :: h in sys.offers ==> h < |sys.eras| && sys.offers[h].payload.ct == Encapsulation(sys.b.pair.pk, sys.offers[h].eph))
    && (forall h :: 0 <= h < |sys.eras| - 1 ==>
          h in sys.offers && sys.eras[h + 1] == Era(Derived(sys, h).root, Derived(sys, h).recv))
  }

  ghost predicate SenderOk(sys: System)
    requires HistoryOk(sys)
  {
    var a, g := sys.a, sys.a.generation;
    && a.root == sys.eras[g].root && a.send.key == Advance(sys.eras[g].seed, a.send.count)
    && a.peer == Some(sys.b.pair.pk) && a.incoming.slot.None? && OneCarrier(a)
    && (a.outgoing.Some? <==> g in sys.offers)
    && (a.outgoing.Some? ==>
          && g < GEN_MAX && a.outgoing.value.payload == sys.offers[g].payload
          && a.outgoing.value.root == Derived(sys, g).root && a.outgoing.value.send == Derived(sys, g).recv)
  }

  /** A message of the log was sealed at its number on the chain of its generation. */
  ghost predicate MessageOk(sys: System, m: Message)
    requires HistoryOk(sys)
  {
    var h := m.nonce.gen;
    && h < |sys.eras| && (h == sys.a.generation ==> m.nonce.num < sys.a.send.count)
    && m.body.Sealed? && m.body.key == MsgKey(Advance(sys.eras[h].seed, m.nonce.num)) && m.body.nonce == m.nonce
    && m.fields == FieldsOf(m.body.aad)
    && (m.body.aad.Some? ==> h in sys.offers && m.body.aad.value == sys.offers[h].payload)
  }

  ghost predicate LogOk(sys: System)
    requires HistoryOk(sys)
  {
    forall i :: 0 <= i < |sys.log| ==> MessageOk(sys, sys.log[i])
  }

  ghost predicate ReceiverOk(sys: System)
    requires HistoryOk(sys)
  {
    var a, b, g := sys.a, sys.b, sys.b.generation;
    && g <= a.generation <= g + 1 && b.outgoing.None?
    && b.root == sys.eras[g].root && OnChain(b, sys.eras[g].seed)
    && (g == a.generation ==> b.recv.count <= a.send.count)
    && (b.incoming.slot.None? ==> b.incoming.carrierGen.None? && g == a.generation)
    && (b.incoming.slot.Some? ==>
          g in sys.offers && b.incoming.carrierGen == Some(g) && b.incoming.slot.value == Derived(sys, g))
  }

  ghost predicate Linked(sys: System) {
    HistoryOk(sys) && SenderOk(sys) && LogOk(sys) && ReceiverOk(sys)
  }

  // ----- Steps -----

  datatype Step =
    | SendA(text: Plaintext, env: Env)
    | AckReachesA
    | DeliverToB(i: nat, now: Clock)
    | StrayToB(m: Message, now: Clock)
    | SendB(text: Plaintext, env: Env)

  /** b has not reached the generation of this carrier yet. */
  predicate EarlyCarrier(b: Session, m: Message) {
    m.nonce.gen == b.generation + 1 && m.fields != NO_FIELDS
  }

  /** Its offer has the secret of the one before, and its number is within max_skip. */
  predicate BringsIn(sys: System, m: Message) {
    && m.nonce.num <= sys.b.maxSkip && m.nonce.gen in sys.offers && sys.b.generation in sys.offers
    && SecretOf(sys, m.nonce.gen) == SecretOf(sys, sys.b.generation)
  }

  /** The stray does not reach the slot, or leaves there what belongs there. */
  predicate StrayHarmless(sys: System, m: Message)
    requires sys.b.generation < |sys.eras|
  {
    var g := sys.b.generation;
    ReachesSlot(sys.b, m) ==> m.nonce.gen == g && g in sys.offers && ProposalFrom(sys.b, m) == Derived(sys, g)
  }

  ghost predicate Enabled(sys: System, step: Step) {
    match step
    case SendA(text, env) => Encrypt(sys.a, text, env).1.Ok?
    case AckReachesA => sys.a.outgoing.Some? && sys.a.queue != [] && sys.b.generation == sys.a.generation && sys.b.incoming.slot.Some?
    case DeliverToB(i, now) => i < |sys.log| && (EarlyCarrier(sys.b, sys.log[i]) ==> BringsIn(sys, sys.log[i]))
    case StrayToB(m, now) => Misfit(m) && sys.b.generation < |sys.eras| && StrayHarmless(sys, m)
    case SendB(text, env) => Encrypt(sys.b, text, env).0.outgoing.None?
  }

  ghost function Execute(sys: System, step: Step): System
    requires Enabled(sys, step)
  {
    match step
    case SendA(text, env) =>
      var (a', r) := Encrypt(sys.a, text, env);
      var g := sys.a.generation;
      var offers := if sys.a.outgoing.None? && a'.outgoing.Some?
                    then sys.offers[g := Offer(a'.outgoing.value.payload, if env.eph.Some? then env.eph.value else 0)]
                    else sys.offers;
      sys.(a := a', log := sys.log + [r.value], offers := offers)
    case AckReachesA =>
      var a' := ProcessAck(sys.a, sys.a.queue[0].at).0;
      sys.(a := a', eras := sys.eras + [Era(a'.root, a'.send.key)])
    case DeliverToB(i, now) => sys.(b := Dispatch(sys.b, sys.log[i], now).0)
    case StrayToB(m, now) => sys.(b := Dispatch(sys.b, m, now).0)
    case SendB(text, env) => sys.(b := Encrypt(sys.b, text, env).0)
  }

  // ----- Each step keeps the link -----

  /** Both peers right after pairing. */
  function Start(root: Root, pairA: KeyPair, pairB: KeyPair): System {
    System(Fresh(root, true, pairA, Some(pairB.pk)), Fresh(root, false, pairB, Some(pairA.pk)),
           [], [Era(root, InitiatorSend(root))], map[])
  }

  lemma StartLinked(root: Root, pairA: KeyPair, pairB: KeyPair)
    requires root.Master?
    ensures Linked(Start(root, pairA, pairB))
  {}

  /** What a successful send of a does to a, and the message it makes. */
  lemma SendShape(a: Session, text: Plaintext, env: Env)
    requires OneCarrier(a) && Encrypt(a, text, env).1.Ok?
    ensures var (a', r) := Encrypt(a, text, env);
            var m := r.value;
            && a' == a.(send := Chain(Next(a.send.key), a.send.count + 1), outgoing := a'.outgoing, queue := a'.queue)
            && OneCarrier(a') && a.generation != GEN_MAX
            && m == Message(Nonce(a.generation, a.send.count),
                            Sealed(MsgKey(a.send.key), m.nonce, m.body.aad, text), FieldsOf(m.body.aad))
            && (m.body.aad.Some? ==> a'.outgoing.Some? && m.body.aad.value == a'.outgoing.value.payload)
            && (a.outgoing.Some? ==> a'.outgoing == a.outgoing)
            && (a.outgoing.None? && a'.outgoing.Some? ==>
                  a.peer.Some? && env.eph.Some?
                  && a'.outgoing == Some(MakeOutgoing(a.root, a.peer.value, env.newPair, env.eph.value)))
  {
    SendStep(a, text, env);
    QueueOfOne(a.queue, env.now);
  }

  lemma SendKeepsLink(sys: System, text: Plaintext, env: Env)
    requires Linked(sys) && Enabled(sys, SendA(text, env))
    ensures Linked(Execute(sys, SendA(text, env)))
  {
    SendShape(sys.a, text, env);
    var sys' := Execute(sys, SendA(text, env));
    AfterSend(sys, sys'.a, Encrypt(sys.a, text, env).1.value, text, env, sys'.offers);
  }

  lemma AfterSend(sys: System, a': Session, m: Message, text: Plaintext, env: Env, offers: map<nat, Offer>)
    requires Linked(sys) && OneCarrier(a') && sys.a.generation != GEN_MAX
    requires a' == sys.a.(send := Chain(Next(sys.a.send.key), sys.a.send.count + 1), outgoing := a'.outgoing, queue := a'.queue)
    requires m.body.Sealed? && m.nonce == Nonce(sys.a.generation, sys.a.send.count)
    requires m == Message(m.nonce, Sealed(MsgKey(sys.a.send.key), m.nonce, m.body.aad, text), FieldsOf(m.body.aad))
    requires m.body.aad.Some? ==> a'.outgoing.Some? && m.body.aad.value == a'.outgoing.value.payload
    requires (a'.outgoing == sys.a.outgoing && offers == sys.offers)
             || (sys.a.outgoing.None? && env.eph.Some? && sys.a.peer.Some?
                 && a'.outgoing == Some(MakeOutgoing(sys.a.root, sys.a.peer.value, env.newPair, env.eph.value))
                 && offers == sys.offers[sys.a.generation := Offer(a'.outgoing.value.payload, env.eph.value)])
    ensures Linked(sys.(a := a', log := sys.log + [m], offers := offers))
  {
    var sys' := sys.(a := a', log := sys.log + [m], offers := offers);
    MoreOffers(sys, sys');
    assert MessageOk(sys', m);
    LogGrows(sys', sys.log, m);
    assert SenderOk(sys');
  }

  lemma LogGrows(sys: System, log: seq<Message>, m: Message)
    requires HistoryOk(sys) && sys.log == log + [m] && MessageOk(sys, m)
    requires forall i :: 0 <= i < |log| ==> MessageOk(sys, log[i])
    ensures LogOk(sys)
  {}

  /** An offer of the current generation, made once, disturbs nothing recorded before. */
  lemma MoreOffers(sys: System, sys': System)
    requires HistoryOk(sys) && LogOk(sys) && ReceiverOk(sys)
    requires sys'.b == sys.b && sys'.eras == sys.eras
    requires sys'.a.generation == sys.a.generation && sys'.a.send.count >= sys.a.send.count
    requires forall h :: h in sys.offers ==> h in sys'.offers && sys'.offers[h] == sys.offers[h]
    requires forall h :: h in sys'.offers ==>
               h < |sys.eras| && sys'.offers[h].payload.ct == Encapsulation(sys.b.pair.pk, sys'.offers[h].eph)
    ensures HistoryOk(sys') && ReceiverOk(sys')
    ensures forall i :: 0 <= i < |sys.log| ==> MessageOk(sys', sys.log[i])
  {
    assert forall h :: h in sys.offers && h < |sys.eras| ==> Derived(sys', h) == Derived(sys, h);
    forall i | 0 <= i < |sys.log| ensures MessageOk(sys', sys.log[i]) {
      assert MessageOk(sys, sys.log[i]);
    }
  }

  lemma AckKeepsLink(sys: System)
    requires Linked(sys) && Enabled(sys, AckReachesA)
    ensures Linked(Execute(sys, AckReachesA))
  {
    var a, g := sys.a, sys.a.generation;
    assert a.queue[0].at == a.queue[0].at;
    assert ProcessAck(a, a.queue[0].at).0 == CommitOutgoing(a);
    assert SeedDepth(Derived(sys, g).recv) < RootDepth(Derived(sys, g).root);
  }

  // ----- Receiving -----

  /** The session a message is opened in, after Phase 1, and the result of opening it there. */
  lemma DispatchStages(s: Session, m: Message, now: Clock)
    requires m.body.Sealed? && m.fields == FieldsOf(m.body.aad)
    ensures var (s', r) := Dispatch(s, m, now);
            if Validate(s, m.nonce).Err? then s' == s && r.Err?
            else if s.previous.Some? && m.nonce.gen == s.previous.value.gen then
              var (p, rp) := FromPrevious(s, m.nonce, m.body, m.body.aad); s' == p && (r.Ok? <==> rp.Ok?)
            else if Staged(s, m.nonce, m.body.aad, now).1.Err? then s' == Staged(s, m.nonce, m.body.aad, now).0 && r.Err?
            else
              var (p, rp) := AfterStaging(Staged(s, m.nonce, m.body.aad, now).0, m.nonce, m.body, m.body.aad);
              s' == p && (r.Ok? <==> rp.Ok?) && (r.Ok? ==> r.value == rp.value.0)
  {
    FieldsOfAad(m.body.aad);
    DispatchUnified(s, m, m.body.aad, now);
  }

  /** A message of the current generation is opened from the cache or the chain, never from the pending chain. */
  lemma CurrentGeneration(s: Session, seed: ChainKey, m: Message)
    requires OnChain(s, seed) && s.outgoing.None?
    requires m.nonce.gen == s.generation && m.body.Sealed? && m.body.nonce == m.nonce
    requires m.body.key == MsgKey(Advance(seed, m.nonce.num))
    requires s.incoming.slot.Some? ==> Seed(s.incoming.slot.value.recv) != Seed(seed)
    ensures var (s', r) := AfterStaging(s, m.nonce, m.body, m.body.aad);
            && (r.Ok? <==> m.nonce in s.skip || s.recv.count <= m.nonce.num <= s.recv.count + s.maxSkip)
            && (r.Ok? ==> r.value.0 == m.body.text)
            && OnChain(s', seed) && SameLink(s, s')
            && (s'.recv.count == s.recv.count || s'.recv.count == m.nonce.num + 1)
            && (r.Ok? && m.nonce !in s.skip ==> s'.recv.count == m.nonce.num + 1)
            && s'.ackSeq == if r.Ok? && m.body.aad.Some? then Some(m.nonce.num) else s.ackSeq
  {
    var n := m.nonce;
    if n in s.skip {
      CacheStaysOnChain(s, seed, n, m.body, m.body.aad);
    } else {
      ChainAcceptsExactly(s, seed, n.num, m.body, m.body.aad);
      if s.incoming.slot.Some? {
        SeedPosAdvance(s.incoming.slot.value.recv, n.num);
        SeedPosAdvance(seed, n.num);
        assert PendingText(s, n, m.body, m.body.aad).None?;
      }
    }
  }

  lemma StageDerives(sys: System, b: Session, m: Message, now: Clock)
    requires Linked(sys) && b == sys.b.(incoming := b.incoming) && MessageOk(sys, m) && m.nonce.gen == sys.b.generation
    requires b.incoming.carrierGen.Some? ==> b.incoming.carrierGen.value <= b.generation
    ensures var (s', r) := Staged(b, m.nonce, m.body.aad, now);
            && r.Ok? && s' == sys.b.(incoming := s'.incoming)
            && (m.body.aad.None? ==> s' == b)
            && (m.body.aad.Some? ==> s'.incoming.slot == Some(Derived(sys, sys.b.generation)) && s'.incoming.carrierGen == Some(sys.b.generation))
  {}

  /** The pending chain is not the chain of the generation it was derived in. */
  lemma PendingIsNew(sys: System, h: nat)
    requires HistoryOk(sys) && h in sys.offers
    ensures Seed(Derived(sys, h).recv) != Seed(sys.eras[h].seed)
  {}

  lemma ReplaceReceiver(sys: System, b': Session)
    requires Linked(sys) && SameLink(sys.b, b') && OnChain(b', sys.eras[sys.b.generation].seed)
    requires sys.b.generation == sys.a.generation ==> b'.recv.count <= sys.a.send.count
    ensures Linked(sys.(b := b'))
  {
    Rebase(sys, b');
  }

  /** Everything recorded about a depends on b only through its key pair. */
  lemma Rebase(sys: System, b': Session)
    requires Linked(sys) && b'.pair == sys.b.pair
    ensures HistoryOk(sys.(b := b')) && SenderOk(sys.(b := b')) && LogOk(sys.(b := b'))
    ensures forall h :: h in sys.offers ==> Derived(sys.(b := b'), h) == Derived(sys, h)
  {
    var sys' := sys.(b := b');
    assert forall h :: h in sys.offers && h < |sys.eras| ==> Derived(sys', h) == Derived(sys, h);
    forall i | 0 <= i < |sys.log| ensures MessageOk(sys', sys.log[i]) { assert MessageOk(sys, sys.log[i]); }
  }

  lemma DeliverOld(sys: System, m: Message, now: Clock)
    requires Linked(sys) && MessageOk(sys, m) && m.nonce.gen < sys.b.generation
    ensures Linked(sys.(b := Dispatch(sys.b, m, now).0))
    ensures var b' := Dispatch(sys.b, m, now).0;
            b'.generation == sys.b.generation && b'.incoming == sys.b.incoming && b'.ackSeq == sys.b.ackSeq
  {
    DispatchStages(sys.b, m, now);
    if sys.b.previous.Some? && m.nonce.gen == sys.b.previous.value.gen {
      PreviousStaysOnChain(sys.b, sys.eras[sys.b.generation].seed, m.nonce, m.body, m.body.aad);
      if Validate(sys.b, m.nonce).Ok? {
        ReplaceReceiver(sys, FromPrevious(sys.b, m.nonce, m.body, m.body.aad).0);
      }
    }
  }

  /** A current-generation message is accepted exactly from the cache or within the window. */
  lemma DeliverCurrent(sys: System, m: Message, now: Clock)
    requires Linked(sys) && MessageOk(sys, m) && m.nonce.gen == sys.b.generation
    ensures Linked(sys.(b := Dispatch(sys.b, m, now).0))
    ensures var r, b := Dispatch(sys.b, m, now).1, sys.b;
            && (r.Ok? <==> b.generation < GEN_MAX && m.nonce !in b.seen
                           && (m.nonce in b.skip || b.recv.count <= m.nonce.num <= b.recv.count + b.maxSkip))
            && (r.Ok? ==> r.value == m.body.text)
    ensures var (b', r) := Dispatch(sys.b, m, now);
            && b'.generation == sys.b.generation && b'.maxSkip == sys.b.maxSkip
            && (r.Ok? && m.nonce !in sys.b.skip ==> b'.recv.count == m.nonce.num + 1)
            && (sys.b.incoming.slot.Some? || (m.body.aad.Some? && Validate(sys.b, m.nonce).Ok?) ==> b'.incoming.slot.Some?)
            && b'.ackSeq == if r.Ok? && m.body.aad.Some? then Some(m.nonce.num) else sys.b.ackSeq
  {
    var b := sys.b;
    DispatchStages(b, m, now);
    if Validate(b, m.nonce).Ok? {
      StageDerives(sys, b, m, now);
      var s := Staged(b, m.nonce, m.body.aad, now).0;
      StagedLink(sys, s);
      OpenCurrent(sys.(b := s), m);
    }
  }

  /** Opening a current-generation message in a linked session, after Phase 1. */
  lemma OpenCurrent(sys: System, m: Message)
    requires Linked(sys) && MessageOk(sys, m) && m.nonce.gen == sys.b.generation
    ensures var (b', r) := AfterStaging(sys.b, m.nonce, m.body, m.body.aad);
            && Linked(sys.(b := b')) && SameLink(sys.b, b')
            && (r.Ok? <==> m.nonce in sys.b.skip || sys.b.recv.count <= m.nonce.num <= sys.b.recv.count + sys.b.maxSkip)
            && (r.Ok? ==> r.value.0 == m.body.text)
            && (r.Ok? && m.nonce !in sys.b.skip ==> b'.recv.count == m.nonce.num + 1)
            && b'.ackSeq == if r.Ok? && m.body.aad.Some? then Some(m.nonce.num) else sys.b.ackSeq
  {
    var g := sys.b.generation;
    if g in sys.offers { PendingIsNew(sys, g); }
    CurrentGeneration(sys.b, sys.eras[g].seed, m);
    ReplaceReceiver(sys, AfterStaging(sys.b, m.nonce, m.body, m.body.aad).0);
  }

  /**
   Whatever a stray of b's own generation has put into the slot, the next carrier of
   that generation to arrive, accepted or not, restores the link.
   */
  lemma CarrierRepairs(sys: System, b: Session, m: Message, now: Clock)
    requires Linked(sys) && b == sys.b.(incoming := b.incoming)
    requires b.incoming.carrierGen.Some? ==> b.incoming.carrierGen.value <= b.generation
    requires MessageOk(sys, m) && m.nonce.gen == b.generation && m.body.aad.Some? && Validate(b, m.nonce).Ok?
    ensures var (b', r) := Dispatch(b, m, now);
            && Linked(sys.(b := b')) && b'.incoming.slot.Some?
            && (r.Ok? <==> m.nonce in b.skip || b.recv.count <= m.nonce.num <= b.recv.count + b.maxSkip)
            && (r.Ok? ==> r.value == m.body.text)
            && (r.Ok? && m.nonce !in b.skip ==> b'.recv.count == m.nonce.num + 1)
  {
    DispatchStages(b, m, now);
    StageDerives(sys, b, m, now);
    var s := Staged(b, m.nonce, m.body.aad, now).0;
    StagedLink(sys, s);
    OpenCurrent(sys.(b := s), m);
  }

  lemma StagedLink(sys: System, s: Session)
    requires Linked(sys) && s == sys.b.(incoming := s.incoming)
    requires s.incoming == sys.b.incoming
          || (sys.b.generation in sys.offers && s.incoming.carrierGen == Some(sys.b.generation)
              && s.incoming.slot == Some(Derived(sys, sys.b.generation)))
    ensures Linked(sys.(b := s))
  {
    Rebase(sys, s);
  }

  /**
   The handoff: the first message of the new generation that is not a carrier is
   accepted exactly up to max_skip, and b then sits right behind it on a's new chain
   with every earlier position cached.
   */
  lemma DeliverNext(sys: System, m: Message, now: Clock)
    requires Linked(sys) && MessageOk(sys, m) && m.nonce.gen == sys.b.generation + 1 && m.fields == NO_FIELDS
    ensures Linked(sys.(b := Dispatch(sys.b, m, now).0))
    ensures var (b', r) := Dispatch(sys.b, m, now);
            && (r.Ok? <==> m.nonce.num <= sys.b.maxSkip)
            && (r.Ok? ==>
                  && r.value == m.body.text && b'.generation == sys.a.generation && b'.root == sys.a.root
                  && b'.recv == Chain(Advance(sys.eras[b'.generation].seed, m.nonce.num + 1), m.nonce.num + 1)
                  && (forall i :: 0 <= i < m.nonce.num ==>
                        Nonce(b'.generation, i) in b'.skip
                        && b'.skip[Nonce(b'.generation, i)] == MsgKey(Advance(sys.eras[b'.generation].seed, i))))
            && (r.Err? ==> b' == sys.b)
            && (r.Ok? ==> b'.ackSeq == if sys.b.ackSeq.None? then sys.b.incoming.carrierSeq else sys.b.ackSeq)
  {
    var b, g := sys.b, sys.b.generation;
    var p := Derived(sys, g);
    DispatchStages(b, m, now);
    PendingIsNew(sys, g);
    SeedPosAdvance(p.recv, m.nonce.num);
    OtherChainFails(b, sys.eras[g].seed, m.nonce, m.body, None, p.recv);
    if m.nonce.num <= b.maxSkip {
      CommitLandsOnChain(b, sys.eras[g].seed, m.nonce.num);
      Rebase(sys, CommitAt(b, m.nonce.num));
    }
  }

  // ----- Opening on the pending chain -----

  /** A message sealed on the chain that starts at seed, for the generation after b's. */
  ghost predicate NextChainMessage(b: Session, seed: ChainKey, m: Message) {
    && m.nonce.gen == b.generation + 1 && m.body.Sealed? && m.body.nonce == m.nonce
    && m.body.key == MsgKey(Advance(seed, m.nonce.num)) && m.fields == FieldsOf(m.body.aad)
  }

  /** Whatever is staged, b opens such a message exactly on the pending chain: if it is the same chain, up to max_skip. */
  lemma OpensOnPending(b: Session, seed: ChainKey, onward: ChainKey, m: Message)
    requires OnChain(b, seed) && NextChainMessage(b, onward, m) && Seed(seed) != Seed(onward)
    requires b.incoming.slot.Some? ==> b.incoming.slot.value.recv == onward || Seed(b.incoming.slot.value.recv) != Seed(onward)
    ensures var (b', r) := AfterStaging(b, m.nonce, m.body, m.body.aad);
            && (r.Ok? <==> b.incoming.slot.Some? && b.incoming.slot.value.recv == onward && m.nonce.num <= b.maxSkip)
            && (r.Ok? ==> r.value.0 == m.body.text && b' == CommitAt(b, m.nonce.num))
            && (r.Err? ==> b' == b)
  {
    SeedPosAdvance(onward, m.nonce.num);
    OtherChainFails(b, seed, m.nonce, m.body, m.body.aad, onward);
    if b.incoming.slot.Some? { SeedPosAdvance(b.incoming.slot.value.recv, m.nonce.num); }
  }

  /** The carrier of a generation b has not entered yet replaces the pending proposal by one under the wrong root. */
  lemma EarlyCarrierStages(sys: System, b: Session, m: Message, now: Clock)
    requires Linked(sys) && MessageOk(sys, m) && EarlyCarrier(sys.b, m) && b == sys.b.(incoming := b.incoming)
    requires b.incoming.carrierGen.Some? ==> b.incoming.carrierGen.value <= m.nonce.gen
    ensures var (s, r) := Staged(b, m.nonce, m.body.aad, now);
            && r.Ok? && s == sys.b.(incoming := s.incoming) && s.incoming.slot.Some?
            && s.incoming.carrierGen == Some(m.nonce.gen) && s.incoming.carrierSeq == Some(m.nonce.num)
            && s.incoming.slot.value.recv == RekeySend(sys.b.root, SecretOf(sys, m.nonce.gen))
  {}

  /** With the same secret in both offers the wrong root still derives the right chain, and the carrier brings b in. */
  lemma EarlyCarrierSameSecret(sys: System, m: Message, now: Clock)
    requires Linked(sys) && MessageOk(sys, m) && EarlyCarrier(sys.b, m)
    requires SecretOf(sys, m.nonce.gen) == SecretOf(sys, sys.b.generation)
    ensures var (b', r) := Dispatch(sys.b, m, now);
            && (r.Ok? <==> m.nonce.num <= sys.b.maxSkip)
            && (r.Ok? ==> r.value == m.body.text && b'.generation == sys.a.generation && b'.recv.count == m.nonce.num + 1)
            && (r.Ok? <==> Linked(sys.(b := b')))
            && (r.Ok? ==> b'.ackSeq == if sys.b.ackSeq.None? then Some(m.nonce.num) else sys.b.ackSeq)
  {
    var b, g, h := sys.b, sys.b.generation, m.nonce.gen;
    EarlyCarrierStages(sys, b, m, now);
    DispatchStages(b, m, now);
    PendingIsNew(sys, g);
    var s := Staged(b, m.nonce, m.body.aad, now).0;
    OpensOnPending(s, sys.eras[g].seed, sys.eras[h].seed, m);
    if m.nonce.num <= b.maxSkip {
      CommitLandsOnChain(s, sys.eras[g].seed, m.nonce.num);
      Rebase(sys, CommitAt(s, m.nonce.num));
    }
  }

  // ----- Every run -----

  lemma DeliverKeepsLink(sys: System, i: nat, now: Clock)
    requires Linked(sys) && Enabled(sys, DeliverToB(i, now))
    ensures Linked(sys.(b := Dispatch(sys.b, sys.log[i], now).0))
  {
    var m := sys.log[i];
    assert MessageOk(sys, m);
    if m.nonce.gen < sys.b.generation {
      DeliverOld(sys, m, now);
    } else if m.nonce.gen == sys.b.generation {
      DeliverCurrent(sys, m, now);
    } else if EarlyCarrier(sys.b, m) {
      EarlyCarrierSameSecret(sys, m, now);
    } else {
      DeliverNext(sys, m, now);
    }
  }

  /**
   A stray, with or without rekey fields, is refused; it keeps the link if and only if
   it does not reach the slot, or happens to carry the very offer that belongs there.
   */
  lemma StrayExactly(sys: System, m: Message, now: Clock)
    requires Linked(sys) && Misfit(m)
    ensures Dispatch(sys.b, m, now).1.Err?
    ensures Linked(sys.(b := Dispatch(sys.b, m, now).0)) <==> StrayHarmless(sys, m)
  {
    StrayTouchesSlotExactly(sys.b, m, now);
    var b' := Dispatch(sys.b, m, now).0;
    if StrayHarmless(sys, m) {
      StagedLink(sys, b');
    } else {
      Rebase(sys, b');
    }
  }

  lemma SendBKeepsLink(sys: System, text: Plaintext, env: Env)
    requires Linked(sys) && Encrypt(sys.b, text, env).0.outgoing.None?
    ensures Linked(sys.(b := Encrypt(sys.b, text, env).0))
  {
    SendKeepsReceiver(sys.b, text, env);
    ReplaceReceiver(sys, Encrypt(sys.b, text, env).0);
  }

  lemma SendKeepsReceiver(b: Session, text: Plaintext, env: Env)
    requires b.outgoing.None? && Encrypt(b, text, env).0.outgoing.None?
    ensures var b' := Encrypt(b, text, env).0; b' == b.(send := b'.send, queue := b'.queue)
  {}

  lemma StepKeepsLink(sys: System, step: Step)
    requires Linked(sys) && Enabled(sys, step)
    ensures Linked(Execute(sys, step))
  {
    match step
    case SendA(text, env) => SendKeepsLink(sys, text, env);
    case AckReachesA => AckKeepsLink(sys);
    case DeliverToB(i, now) => DeliverKeepsLink(sys, i, now);
    case StrayToB(m, now) => StrayExactly(sys, m, now);
    case SendB(text, env) => SendBKeepsLink(sys, text, env);
  }

  ghost predicate AllEnabled(sys: System, steps: seq<Step>)
    decreases |steps|
  {
    steps != [] ==> Enabled(sys, steps[0]) && AllEnabled(Execute(sys, steps[0]), steps[1..])
  }

  ghost function ExecuteAll(sys: System, steps: seq<Step>): System
    requires AllEnabled(sys, steps)
    decreases |steps|
  {
    if steps == [] then sys else ExecuteAll(Execute(sys, steps[0]), steps[1..])
  }

  /** Over any number of messages, losses, duplicates, reorderings, harmless strays and rekeys the peers stay linked. */
  lemma {:induction false} RunKeepsLink(sys: System, steps: seq<Step>)
    requires Linked(sys) && AllEnabled(sys, steps)
    ensures Linked(ExecuteAll(sys, steps))
    decreases |steps|
  {
    if steps != [] {
      StepKeepsLink(sys, steps[0]);
      RunKeepsLink(Execute(sys, steps[0]), steps[1..]);
    }
  }

  /** So from a pairing on, in every run. */
  lemma PeersStayLinked(root: Root, pairA: KeyPair, pairB: KeyPair, steps: seq<Step>)
    requires root.Master? && AllEnabled(Start(root, pairA, pairB), steps)
    ensures Linked(ExecuteAll(Start(root, pairA, pairB), steps))
  {
    StartLinked(root, pairA, pairB);
    RunKeepsLink(Start(root, pairA, pairB), steps);
  }
}
