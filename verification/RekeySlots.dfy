/** What failing receives leave behind, and what the proposal slots and their stamps really promise. */
module RekeySlots {
  import opened Symbolic
  import opened RatchetSpec
  import opened Receiving

  // ----- Failure atomicity -----

  /** A failing plain receive changes nothing at all. */
  lemma PlainFailureAtomic(s: Session, n: Nonce, body: Cipher)
    requires Decrypt(s, n, body).1.Err?
    ensures Decrypt(s, n, body).0 == s
  {}

  /** Neither the current generation nor the next, nor the retained one: refused without a trace. */
  lemma OtherGenerationsFail(s: Session, m: Message, now: Clock)
    requires s.generation < GEN_MAX && m.nonce.gen != s.generation && m.nonce.gen != s.generation + 1
    requires s.previous.Some? ==> m.nonce.gen != s.previous.value.gen
    ensures Dispatch(s, m, now) == (s, Err(GenerationMismatch))
  {}

  /** The message reaches Phase 1 with a complete, current, well-formed offer. */
  predicate ReachesSlot(s: Session, m: Message) {
    && Validate(s, m.nonce).Ok? && BuildAad(m.fields).Ok? && BuildAad(m.fields).value.Some?
    && !(s.previous.Some? && m.nonce.gen == s.previous.value.gen)
    && !DropsCarrier(s, m.nonce)
    && m.fields.ct.value.Encapsulation?
  }

  /** The proposal such an offer leads to, under the root of the moment. */
  function ProposalFrom(s: Session, m: Message): Proposal
    requires ReachesSlot(s, m)
  {
    var offer := BuildAad(m.fields).value.value;
    var ss := Decapsulate(offer.ct, s.pair).value;
    Proposal(NextRoot(s.root, ss), RekeyRecv(s.root, ss), RekeySend(s.root, ss), offer.pk)
  }

  /**
   A failing rekey-aware receive changes at most the incoming slot, and it does
   replace the slot exactly when the (unauthenticated) offer is complete, current
   and well-formed: Phase 1 runs before the message is opened.
   */
  lemma RekeyFailureTouchesSlotOnly(s: Session, m: Message, now: Clock)
    requires DecryptRekey(s, m, now).1.Err?
    ensures var s' := DecryptRekey(s, m, now).0;
            && s' == s.(incoming := s'.incoming)
            && (ReachesSlot(s, m) ==> s'.incoming.slot == Some(ProposalFrom(s, m)) && s'.incoming.carrierGen == Some(m.nonce.gen))
            && (!ReachesSlot(s, m) ==> s' == s)
  {
    if BuildAad(m.fields).Ok? && BuildAad(m.fields).value.Some? {
      var offer := BuildAad(m.fields).value.value;
      HistoryNeverConsulted(offer.ct, s.pair, s.history);
    }
  }

  /** The same on either receive path, for a message that is not what it claims to be. */
  lemma StrayTouchesSlotExactly(s: Session, m: Message, now: Clock)
    requires Misfit(m)
    ensures var (s', r) := Dispatch(s, m, now);
            && r.Err? && s' == s.(incoming := s'.incoming)
            && (ReachesSlot(s, m) ==> s'.incoming.slot == Some(ProposalFrom(s, m)) && s'.incoming.carrierGen == Some(m.nonce.gen))
            && (!ReachesSlot(s, m) ==> s' == s)
  {
    MisfitRefused(s, m, now);
    if m.fields == NO_FIELDS {
      PlainFailureAtomic(s, m.nonce, m.body);
    } else {
      RekeyFailureTouchesSlotOnly(s, m, now);
    }
  }

  // ----- Retained key pairs -----

  /**
   The retained key pairs never decide a decapsulation, so an offer made to a key
   this side has since replaced is never derived the way
   the peer derived it: the staged chains differ from the offered ones.
   */
  lemma OfferToOldKeyStagesUnrelatedChains(s: Session, n: Nonce, peerRoot: Root, oldPk: PublicKey, peerPair: KeyPair, eph: nat, now: Clock)
    requires oldPk != s.pair.pk && !DropsCarrier(s, n)
    ensures var o := MakeOutgoing(peerRoot, oldPk, peerPair, eph);
            var s' := Stage(s, n, o.payload, now).0;
            && s'.incoming.slot.Some?
            && s'.incoming.slot.value.recv != o.send && s'.incoming.slot.value.root != o.root
  {
    HistoryNeverConsulted(Encapsulation(oldPk, eph), s.pair, s.history);
  }

  // ----- First-seen stamps -----

  /**
   A proposal staged into an empty slot should start its lifetime now.  It does so
   if and only if no monotonic stamp of an earlier proposal is left over, or that
   stamp is younger than the lifetime: committing and cancelling keep it.
   */
  lemma NewProposalStaleExactly(s: Session, n: Nonce, offer: Payload, now: Clock)
    requires s.incoming.slot.None? && s.incoming.carrierGen.None? && s.incoming.attachedUnix.None?
    requires !DropsCarrier(s, n) && offer.ct.Encapsulation?
    ensures Stage(s, n, offer, now).0.incoming.slot.Some?
    ensures IncomingStale(Stage(s, n, offer, now).0.incoming, now)
       <==> s.incoming.attachedMono.Some? && Elapsed(now.mono, s.incoming.attachedMono.value) >= INCOMING_REKEY_TTL
  {
    HistoryNeverConsulted(offer.ct, s.pair, s.history);
  }

  /** A proposal staged a hundred seconds after a cancelled one is stale on arrival. */
  lemma NewProposalBornStale()
    ensures var s := Fresh(Master(0), false, KeyPair(PublicKey([1], [1])), None);
            var offer := Payload(PublicKey([2], [2]), Encapsulation(PublicKey([1], [1]), 7));
            var first := Stage(s, Nonce(0, 0), offer, Clock(0, 0)).0;
            var again := Stage(CancelIncoming(first), Nonce(0, 1), offer, Clock(100, 100)).0;
            !IncomingStale(first.incoming, Clock(0, 0)) && IncomingStale(again.incoming, Clock(100, 100))
  {
    var s := Fresh(Master(0), false, KeyPair(PublicKey([1], [1])), None);
    var offer := Payload(PublicKey([2], [2]), Encapsulation(PublicKey([1], [1]), 7));
    var first := Stage(s, Nonce(0, 0), offer, Clock(0, 0)).0;
    NewProposalStaleExactly(s, Nonce(0, 0), offer, Clock(0, 0));
    NewProposalStaleExactly(CancelIncoming(first), Nonce(0, 1), offer, Clock(100, 100));
    HistoryNeverConsulted(offer.ct, s.pair, s.history);
  }

  // ----- The explicit rekey request -----

  /**
   An offer made by the explicit request carries the receiver's own public key, so
   once the receiver commits it, its next offer is encapsulated to itself, and the
   two sides derive different roots from it.
   */
  lemma ExplicitRekeyUncrossesKeys(a: Session, b: Session, env: Env, now: Clock, num: nat, next: KeyPair, eph: nat, s: Session, n: Nonce)
    requires a.outgoing.None? && a.incoming.slot.None? && env.eph.Some?
    requires b.outgoing.None? && b.incoming.slot.None? && b.incoming.carrierGen.None? && b.generation < GEN_MAX
    requires s.pair.pk != b.pair.pk && !DropsCarrier(s, n)
    ensures var offer := DhRekey(a, b.pair.pk, env).0.outgoing.value.payload;
            var b' := CommitAt(Stage(b, Nonce(b.generation, num), offer, now).0, num);
            && b'.peer == Some(b.pair.pk)
            && var o := MakeOutgoing(b'.root, b'.peer.value, next, eph);
               Stage(s, n, o.payload, now).0.incoming.slot.Some?
               && Stage(s, n, o.payload, now).0.incoming.slot.value.root != o.root
  {
    var offer := DhRekey(a, b.pair.pk, env).0.outgoing.value.payload;
    HistoryNeverConsulted(offer.ct, b.pair, b.history);
    var b1 := Stage(b, Nonce(b.generation, num), offer, now).0;
    assert b1.incoming.slot.Some? && b1.incoming.slot.value.peer == b.pair.pk;
    var b' := CommitAt(b1, num);
    OfferToOldKeyStagesUnrelatedChains(s, n, b'.root, b.pair.pk, next, eph, now);
  }
}
