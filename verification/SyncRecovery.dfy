/** What a Synchronize packet does to the live ratchet: recovery when it is accepted, and what a refusal leaves behind. */
module SyncRecovery {
  import opened Symbolic
  import opened RatchetSpec
  import opened Receiving
  import opened SyncSpec
  import opened SkipCache
  import opened ChainRefinement
  import RekeySlots

  // ----- Refusals -----

  /** Every delivery changes the session. */
  lemma DeliveryChangesSession(s: Session, m: Message, now: Clock)
    requires s.generation <= GEN_MAX && Dispatch(s, m, now).1.Ok?
    ensures Dispatch(s, m, now).0 != s
  {
    if BuildAad(m.fields).Err? {
      PartialFieldsRefused(s, m, now);
    } else {
      var aad := BuildAad(m.fields).value;
      DispatchUnified(s, m, aad, now);
      if s.previous.Some? && m.nonce.gen == s.previous.value.gen {
        assert m.nonce in s.skip ==> m.nonce !in FromPrevious(s, m.nonce, m.body, aad).0.skip;
      } else {
        StagedSlotOnly(s, m.nonce, aad, now);
        OpeningChangesSession(s, Staged(s, m.nonce, aad, now).0, m.nonce, m.body, aad);
      }
    }
  }

  lemma OpeningChangesSession(s: Session, s1: Session, n: Nonce, body: Cipher, aad: Option<Payload>)
    requires s1 == s.(incoming := s1.incoming) && s.generation < GEN_MAX && AfterStaging(s1, n, body, aad).1.Ok?
    ensures AfterStaging(s1, n, body, aad).0 != s
  {
    if n in s1.skip {
      assert n !in AfterStaging(s1, n, body, aad).0.skip;
    } else if FromChain(s1, n, body, aad).1.Ok? {
      StepsForward(s1.recv.key, if n.num > s1.recv.count then n.num - s1.recv.count else 0);
      assert AfterStaging(s1, n, body, aad).0.recv.key != s.recv.key;
    }
  }

  lemma StepsForward(ck: ChainKey, steps: nat)
    ensures Next(Advance(ck, steps)) != ck
  {
    AdvanceInjective(ck, steps + 1, 0);
  }

  /**
   A refused packet.  Beyond the window or from a later generation the live ratchet
   is untouched.  Otherwise it is opened on the live ratchet itself: a packet that
   authenticates, plain or a carrier, but is no Synchronize of its own position has
   been consumed; one that does not authenticate changes at most the rekey slot, and
   nothing at all unless its offer reaches the slot.
   */
  lemma RefusalExactly(s: Session, m: Message, t: Times)
    requires ApplySync(s, m, t).1.Err? && s.generation <= GEN_MAX
    ensures var s' := ApplySync(s, m, t).0;
            && (OnTrial(s, m.nonce) ==> s' == s)
            && (!OnTrial(s, m.nonce) && Attempt(s, m, t.open).1.Ok? ==> s' != s)
            && (!OnTrial(s, m.nonce) && Attempt(s, m, t.open).1.Err? ==>
                  s' == s.(incoming := s'.incoming) && (!RekeySlots.ReachesSlot(s, m) || !KeyFits(m) ==> s' == s))
  {
    if KeyFits(m) {
      if Dispatch(s, m, t.open).1.Ok? {
        DeliveryChangesSession(s, m, t.open);
      } else if m.fields == NO_FIELDS {
        RekeySlots.PlainFailureAtomic(s, m.nonce, m.body);
      } else {
        RekeySlots.RekeyFailureTouchesSlotOnly(s, m, t.open);
      }
    }
  }

  /** An ordinary message of the stream, handed in as a Synchronize, is refused and can never be delivered again. */
  lemma MisdirectedMessageIsLost(w: Stream, s: Session, delivered: set<nat>, i: nat, t: Times, now: Clock)
    requires Aligned(w, s, delivered) && Acceptable(w, s, i) && Stageable(w, s, i) && KeyFits(Sent(w, i))
    requires w.texts(i) != Synchronize(i)
    ensures ApplySync(s, Sent(w, i), t).1.Err?
    ensures !OnTrial(s, Nonce(w.gen, i)) ==>
              var s' := ApplySync(s, Sent(w, i), t).0;
              Aligned(w, s', delivered + {i}) && Dispatch(s', Sent(w, i), now).1.Err?
  {
    ArrivalExact(w, s, delivered, i, t.open);
    if !OnTrial(s, Nonce(w.gen, i)) {
      ArrivalExact(w, ApplySync(s, Sent(w, i), t).0, delivered + {i}, i, now);
    }
  }

  // ----- Recovery -----

  /** No fresh offer of either side stands in the way. */
  predicate OffersClear(s: Session, now: Clock) {
    && (s.incoming.slot.None? || IncomingStale(s.incoming, now))
    && (s.outgoing.None? || OutgoingStale(s.queue, now))
  }

  predicate WithinBudgets(s: Session, i: nat)
    requires i >= s.recv.count
  {
    i - s.recv.count <= SYNC_MAX_GAP && s.resyncTotal + (i - s.recv.count) <= SYNC_MAX_CUMULATIVE
  }

  /** The session without its stale offers. */
  function Evicted(s: Session): Session {
    var s1 := if s.incoming.slot.Some? then CancelIncoming(s) else s;
    if s1.outgoing.Some? then CancelOutgoing(s1) else s1
  }

  /** The clone after the jump. */
  function Jumped(w: Stream, s: Session, i: nat): Session
    requires i >= s.recv.count
  {
    Evicted(s).(
      recv := Chain(Advance(w.seed, i), i),
      resyncTotal := s.resyncTotal + (i - s.recv.count),
      skip := Stepped(w, s, i).skip)
  }

  lemma JumpExactly(w: Stream, s: Session, delivered: set<nat>, i: nat, now: Clock)
    requires Aligned(w, s, delivered) && i > s.recv.count
    ensures Resync(s, i, now).1.Ok? <==> OffersClear(s, now) && WithinBudgets(s, i)
    ensures Resync(s, i, now).1.Ok? ==> Resync(s, i, now) == (Jumped(w, s, i), Ok(i - s.recv.count))
  {
    AdvanceAdd(w.seed, s.recv.count, i - s.recv.count);
  }

  /** Asked for by number, for any target: the jump is made exactly forward, with no fresh offer pending, within both budgets. */
  lemma ResyncExactly(s: Session, target: nat, now: Clock)
    ensures var (s', r) := Resync(s, target, now);
            && (r.Ok? <==> OffersClear(s, now) && target > s.recv.count && WithinBudgets(s, target))
            && (r.Ok? ==>
                  && r.value == target - s.recv.count
                  && s'.recv == Chain(Advance(s.recv.key, target - s.recv.count), target)
                  && s'.resyncTotal == s.resyncTotal + (target - s.recv.count)
                  && s'.incoming.slot.None? && s'.outgoing.None? && s'.send == s.send && s'.seen == s.seen)
            && (r.Err? ==> s'.recv == s.recv && s'.skip == s.skip && s'.seen == s.seen && s'.resyncTotal == s.resyncTotal)
            && (r.Err? ==>
                  r.error == if !OffersClear(s, now) then ProposalPending
                             else if target <= s.recv.count then StaleTarget
                             else if target - s.recv.count > 1000 then GapTooLarge else BudgetExhausted)
  {}

  /** A packet of a generation beyond the next is a cross-generation error, and nothing is touched. */
  lemma FarGenerationRefused(s: Session, m: Message, t: Times)
    requires s.generation < GEN_MAX && m.nonce.gen > s.generation + 1 && (s.previous.Some? ==> s.previous.value.gen < s.generation)
    ensures ApplySync(s, m, t) == (s, Err(CrossGeneration))
  {
    if KeyFits(m) { RekeySlots.OtherGenerationsFail(s, m, t.open); }
  }

  lemma JumpedCache(w: Stream, s: Session, delivered: set<nat>, i: nat)
    requires Aligned(w, s, delivered) && i > s.recv.count
    ensures CacheAligned(w, Jumped(w, s, i), delivered) && NothingLost(w, Jumped(w, s, i), delivered)
  {
    var j := Jumped(w, s, i);
    RangeOnChain(w.seed, s.recv, i, w.gen);
    assert CacheAligned(w, j, delivered);
    KeptAcross(w, s, delivered, i);
  }

  lemma KeptAcross(w: Stream, s: Session, delivered: set<nat>, i: nat)
    requires Aligned(w, s, delivered) && i > s.recv.count
    ensures NothingLost(w, Jumped(w, s, i), delivered)
  {
    var range := SkipRange(s.recv.key, s.recv.count, i, w.gen);
    RangeOnChain(w.seed, s.recv, i, w.gen);
    forall k | 0 <= k < i && k !in delivered && k + 2 * s.maxSkip >= i ensures Nonce(w.gen, k) in Stepped(w, s, i).skip {
      assert k >= s.recv.count ==> Nonce(w.gen, k) in range;
      KeptByPrune(s.skip + range, Nonce(w.gen, k), i, 2 * s.maxSkip);
    }
  }

  /**
   Recovery from a gap wider than the skip window.  A genuine Synchronize of the
   stream, plain or a carrier, is accepted exactly when no fresh offer of either side
   is pending and both jump budgets allow it; the receiver then sits right behind it,
   still on the sender's chain, with every position of the window cached or delivered.
   */
  lemma SyncRecoversExactly(w: Stream, s: Session, delivered: set<nat>, i: nat, t: Times)
    requires Aligned(w, s, delivered) && w.texts(i) == Synchronize(i) && KeyFits(Sent(w, i))
    requires w.offers(i).Some? ==> w.offers(i).value.ct.Encapsulation?
    requires i > s.recv.count + s.maxSkip
    ensures var (s', r) := ApplySync(s, Sent(w, i), t);
            && (r.Ok? <==> OffersClear(s, t.resync) && WithinBudgets(s, i))
            && (r.Ok? ==> r.value == i - s.recv.count && s'.recv.count == i + 1 && Aligned(w, s', delivered + {i}))
            && (r.Err? ==> s' == s)
  {
    JumpExactly(w, s, delivered, i, t.resync);
    if OffersClear(s, t.resync) && WithinBudgets(s, i) {
      var j := Jumped(w, s, i);
      JumpedCache(w, s, delivered, i);
      assert Aligned(w, j, delivered);
      AtCounter(w, j, delivered, i, t.open);
    }
  }

  /** The message right at the counter is delivered and moves it by one. */
  lemma AtCounter(w: Stream, s: Session, delivered: set<nat>, i: nat, now: Clock)
    requires Aligned(w, s, delivered) && s.recv.count == i && (w.offers(i).Some? ==> w.offers(i).value.ct.Encapsulation?)
    ensures var (s', r) := Dispatch(s, Sent(w, i), now);
            r == Ok(w.texts(i)) && s'.recv.count == i + 1 && Aligned(w, s', delivered + {i})
  {
    var n, aad := Nonce(w.gen, i), w.offers(i);
    FieldsOfAad(aad);
    DispatchUnified(s, Sent(w, i), aad, now);
    StagedSlotOnly(s, n, aad, now);
    var s1 := Staged(s, n, aad, now).0;
    SlotIrrelevant(w, s, s1, delivered);
    ChainCopy(w, s1, delivered, i);
  }

  // ----- The whole call -----

  lemma OpenedText(s: Session, n: Nonce, body: Cipher, aad: Option<Payload>)
    ensures AfterStaging(s, n, body, aad).1.Ok? ==> body.Sealed? && AfterStaging(s, n, body, aad).1.value.0 == body.text
    ensures s.previous.Some? && n.gen == s.previous.value.gen && FromPrevious(s, n, body, aad).1.Ok? ==>
              body.Sealed? && FromPrevious(s, n, body, aad).1.value.0 == body.text
  {}

  /** Whatever is delivered is the text that was sealed. */
  lemma DeliveredText(s: Session, m: Message, now: Clock)
    requires Dispatch(s, m, now).1.Ok?
    ensures m.body.Sealed? && Dispatch(s, m, now).1.value == m.body.text
  {
    if BuildAad(m.fields).Err? {
      PartialFieldsRefused(s, m, now);
    } else {
      var aad := BuildAad(m.fields).value;
      DispatchUnified(s, m, aad, now);
      OpenedText(s, m.nonce, m.body, aad);
      OpenedText(Staged(s, m.nonce, aad, now).0, m.nonce, m.body, aad);
    }
  }

  /** In every state, on every branch, nothing is accepted but an authentic Synchronize that names its own position. */
  lemma AcceptedNamesItself(l: Ledger, s: Session, p: Packet, t: Times)
    requires ProcessSync(l, Some(s), p, t).2.Accepted?
    ensures p.msg.Some? && p.msg.value.body.Sealed? && p.msg.value.body.text == Synchronize(p.msg.value.nonce.num)
  {
    var m := p.msg.value;
    AppliedNamesItself(s, m, t);
  }

  lemma AppliedNamesItself(s: Session, m: Message, t: Times)
    requires ApplySync(s, m, t).1.Ok?
    ensures m.body.Sealed? && m.body.text == Synchronize(m.nonce.num)
  {
    if LargeGap(s, m.nonce) {
      var trial := Resync(s, m.nonce.num, t.resync).0;
      if Dispatch(trial, m, t.open).1.Ok? { DeliveredText(trial, m, t.open); }
    } else if Dispatch(s, m, t.open).1.Ok? {
      DeliveredText(s, m, t.open);
    }
  }

  /** The packet is not one of those applied lately, and the burst budget is not used up. */
  ghost predicate Admitted(l: Ledger, p: Packet, t: Times) {
    !Recognises(RecentApplied(l.applied, t.lookup), p.digest) && |RecentStamps(l.stamps, t.check)| < SYNC_RATE_BURST
  }

  /** A packet that cannot be read, is a duplicate or exceeds the budget never reaches the session. */
  lemma TurnedAwayUntouched(l: Ledger, live: Option<Session>, p: Packet, t: Times)
    ensures var (_, live', v) := ProcessSync(l, live, p, t);
            && (v.Unreadable? <==> p.msg.None?)
            && (v.Duplicate? <==> p.msg.Some? && Recognises(RecentApplied(l.applied, t.lookup), p.digest))
            && (v.Limited? <==> p.msg.Some? && !v.Duplicate? && |RecentStamps(l.stamps, t.check)| >= SYNC_RATE_BURST)
            && (v.Unreadable? || v.Duplicate? || v.Limited? || live.None? ==> live' == live)
            && (p.msg.Some? && Admitted(l, p, t) && live.None? ==> v == Refused(NoSession))
  {}

  /** What a refusal leaves of the live session, per branch, at the level of the whole call. */
  lemma RefusedCallExactly(l: Ledger, s: Session, p: Packet, t: Times)
    requires ProcessSync(l, Some(s), p, t).2.Refused? && s.generation <= GEN_MAX
    ensures var (_, live', _) := ProcessSync(l, Some(s), p, t);
            && live'.Some?
            && (OnTrial(s, p.msg.value.nonce) ==> live' == Some(s))
            && (!OnTrial(s, p.msg.value.nonce) && Attempt(s, p.msg.value, t.open).1.Ok? ==> live' != Some(s))
            && (!OnTrial(s, p.msg.value.nonce) && Attempt(s, p.msg.value, t.open).1.Err? ==>
                  live' == Some(s.(incoming := live'.value.incoming)))
  {
    RefusalExactly(s, p.msg.value, t);
  }

  /** Within the window a packet needs its key at hand; beyond it, no fresh offer and room in both jump budgets. */
  ghost predicate Appliable(w: Stream, s: Session, i: nat, t: Times) {
    if i > s.recv.count + s.maxSkip then OffersClear(s, t.resync) && WithinBudgets(s, i)
    else Acceptable(w, s, i) && Stageable(w, s, i)
  }

  /**
   A genuine Synchronize of the stream, plain or a carrier, handed in as a packet: it is
   accepted if and only if it is neither recognised nor over the budget and can be
   applied.  The live session is then still on the sender's chain with that packet
   delivered, right behind it unless it came from the cache, and is reported as skipping
   what it jumped.
   */
  lemma AcceptedCallRecovers(l: Ledger, w: Stream, s: Session, delivered: set<nat>, i: nat, p: Packet, t: Times)
    requires Aligned(w, s, delivered) && w.texts(i) == Synchronize(i) && KeyFits(Sent(w, i))
    requires w.offers(i).Some? ==> w.offers(i).value.ct.Encapsulation?
    requires p.msg == Some(Sent(w, i))
    ensures var (_, live', v) := ProcessSync(l, Some(s), p, t);
            && (v.Accepted? <==> Admitted(l, p, t) && Appliable(w, s, i, t))
            && (v.Accepted? ==>
                  && live'.Some? && Aligned(w, live'.value, delivered + {i})
                  && live'.value.recv.count == (if i < s.recv.count then s.recv.count else i + 1)
                  && v.skipped == if i > s.recv.count + s.maxSkip then i - s.recv.count else 0)
  {
    if i > s.recv.count + s.maxSkip {
      SyncRecoversExactly(w, s, delivered, i, t);
    } else {
      NearSyncApplied(w, s, delivered, i, t);
    }
  }

  lemma NearSyncApplied(w: Stream, s: Session, delivered: set<nat>, i: nat, t: Times)
    requires Aligned(w, s, delivered) && w.texts(i) == Synchronize(i) && KeyFits(Sent(w, i))
    requires i <= s.recv.count + s.maxSkip
    ensures var (s', r) := ApplySync(s, Sent(w, i), t);
            && (r.Ok? <==> Acceptable(w, s, i) && Stageable(w, s, i))
            && (r.Ok? ==> r.value == 0 && Aligned(w, s', delivered + {i}))
            && (r.Ok? ==> s'.recv.count == if i < s.recv.count then s.recv.count else i + 1)
  {
    ArrivalExact(w, s, delivered, i, t.open);
    CounterAfter(w, s, delivered, i, t.open);
    assert !OnTrial(s, Nonce(w.gen, i));
  }

  /** The counter after a delivery: from the cache it stays, on the chain it moves right behind the message. */
  lemma CounterAfter(w: Stream, s: Session, delivered: set<nat>, i: nat, now: Clock)
    requires Aligned(w, s, delivered)
    ensures var (s', r) := Dispatch(s, Sent(w, i), now);
            r.Ok? ==> s'.recv.count == if i < s.recv.count then s.recv.count else i + 1
  {
    var n, aad := Nonce(w.gen, i), w.offers(i);
    FieldsOfAad(aad);
    DispatchUnified(s, Sent(w, i), aad, now);
    StagedSlotOnly(s, n, aad, now);
    var s1 := Staged(s, n, aad, now).0;
    SlotIrrelevant(w, s, s1, delivered);
    OpenExact(w, s1, delivered, i);
    if i >= s.recv.count && i <= s.recv.count + s.maxSkip { ChainCopy(w, s1, delivered, i); }
  }
}
