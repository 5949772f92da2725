/** What an applied Synchronize packet does to two linked peers: across a rekey, and across a wide gap. */
module LinkRecovery {
  import opened Symbolic
  import opened RatchetSpec
  import opened Receiving
  import opened SkipCache
  import opened SyncSpec
  import opened NoDesync
  import opened Handoff
  import opened SyncRecovery

  /**
   Recovery across a rekey.  In every linked state a Synchronize from the generation
   the receiver has not entered yet, plain or a carrier, is applied exactly when its
   number is within max_skip of the start of the new chain and it is not a carrier with
   a secret of its own; the receiver is then in the sender's generation, right behind
   the packet.  Otherwise the live ratchet is untouched.  Either way the peers stay linked.
   */
  lemma CrossGenerationRecoversExactly(sys: System, m: Message, t: Times)
    requires Linked(sys) && MessageOk(sys, m) && m.nonce.gen == sys.b.generation + 1
    requires KeyFits(m) && m.body.text == Synchronize(m.nonce.num)
    ensures var (b', r) := ApplySync(sys.b, m, t);
            && (r.Ok? <==>
                  && m.nonce.num <= sys.b.maxSkip
                  && (m.body.aad.None? || SecretOf(sys, m.nonce.gen) == SecretOf(sys, sys.b.generation)))
            && (r.Ok? ==> r.value == 0 && b'.generation == sys.a.generation && b'.recv.count == m.nonce.num + 1)
            && (r.Err? ==> r.error == CrossGeneration && b' == sys.b)
            && Linked(sys.(b := b'))
  {
    if m.body.aad.None? {
      DeliverNext(sys, m, t.open);
    } else {
      EarlyCarrierExactly(sys, m, t.open);
    }
    assert Dispatch(sys.b, m, t.open) == Attempt(sys.b, m, t.open);
    assert CrossesGeneration(sys.b, m.nonce);
  }

  /** Dropping the staged offer, stale or not, keeps the link exactly as long as the sender has not moved on. */
  lemma EvictionKeepsLinkExactly(sys: System)
    requires Linked(sys) && sys.b.incoming.slot.Some?
    ensures Linked(sys.(b := CancelIncoming(sys.b))) <==> sys.a.generation == sys.b.generation
  {
    Rebase(sys, CancelIncoming(sys.b));
  }

  /** The receiver moved forward on the same chain, the positions in between cached. */
  function Forwarded(b: Session, target: nat): Session
    requires target >= b.recv.count
  {
    b.(recv := Chain(Advance(b.recv.key, target - b.recv.count), target),
       resyncTotal := b.resyncTotal + (target - b.recv.count),
       skip := Prune(b.skip + SkipRange(b.recv.key, b.recv.count, target, b.generation), b.generation, 2 * b.maxSkip))
  }

  lemma ForwardedLinked(sys: System, target: nat)
    requires Linked(sys) && target >= sys.b.recv.count && (sys.a.generation == sys.b.generation ==> target <= sys.a.send.count)
    ensures Linked(sys.(b := Forwarded(sys.b, target)))
  {
    var seed := sys.eras[sys.b.generation].seed;
    AdvanceAdd(seed, sys.b.recv.count, target - sys.b.recv.count);
    RangeOnChain(seed, sys.b.recv, target, sys.b.generation);
    ReplaceReceiver(sys, Forwarded(sys.b, target));
  }

  lemma ResyncForwards(b: Session, target: nat, now: Clock)
    requires b.outgoing.None? && target > b.recv.count
    ensures Resync(b, target, now).1.Ok? <==> OffersClear(b, now) && WithinBudgets(b, target)
    ensures Resync(b, target, now).1.Ok? ==>
              Resync(b, target, now).0 == if b.incoming.slot.Some? then CancelIncoming(Forwarded(b, target)) else Forwarded(b, target)
  {}

  /** The packet right at the counter. */
  lemma OpensAtCounter(sys: System, m: Message, now: Clock)
    requires Linked(sys) && MessageOk(sys, m) && m.nonce == Nonce(sys.b.generation, sys.b.recv.count) && sys.b.generation < GEN_MAX
    ensures var (b', r) := Dispatch(sys.b, m, now);
            r == Ok(m.body.text) && b'.recv.count == m.nonce.num + 1 && Linked(sys.(b := b'))
  {
    DeliverCurrent(sys, m, now);
  }

  /** The packet right at the counter, in a session whose staged offer has been dropped. */
  lemma OpensAfterEviction(sys: System, m: Message, now: Clock)
    requires Linked(sys) && MessageOk(sys, m) && m.nonce == Nonce(sys.b.generation, sys.b.recv.count)
    requires sys.b.incoming.slot.Some? && sys.b.generation < GEN_MAX
    ensures var (b', r) := Dispatch(CancelIncoming(sys.b), m, now);
            && r == Ok(m.body.text) && b'.recv.count == m.nonce.num + 1
            && (Linked(sys.(b := b')) <==> sys.a.generation == sys.b.generation || m.body.aad.Some?)
  {
    var b := CancelIncoming(sys.b);
    if m.body.aad.Some? {
      CarrierRepairs(sys, b, m, now);
    } else {
      EvictionKeepsLinkExactly(sys);
      DispatchStages(b, m, now);
      CurrentGeneration(b, sys.eras[b.generation].seed, m);
      if sys.a.generation == sys.b.generation { OpensAtCounter(sys.(b := b), m, now); }
    }
  }

  /**
   Recovery from a wide gap.  In every linked state a Synchronize of the receiver's
   generation beyond the skip window is applied exactly when no fresh offer is staged and
   both budgets allow the jump.  A stale offer is evicted on the way, and then the peers
   stay linked if and only if the sender has not moved on with that offer, or the packet
   carries it again.
   */
  lemma WideGapRecoversExactly(sys: System, m: Message, t: Times)
    requires Linked(sys) && MessageOk(sys, m) && m.nonce.gen == sys.b.generation < GEN_MAX
    requires m.nonce.num > sys.b.recv.count + sys.b.maxSkip && KeyFits(m) && m.body.text == Synchronize(m.nonce.num)
    ensures var (b', r) := ApplySync(sys.b, m, t);
            && (r.Ok? <==> OffersClear(sys.b, t.resync) && WithinBudgets(sys.b, m.nonce.num))
            && (r.Ok? ==>
                  && r.value == m.nonce.num - sys.b.recv.count && b'.recv.count == m.nonce.num + 1
                  && (Linked(sys.(b := b')) <==>
                        sys.b.incoming.slot.None? || sys.a.generation == sys.b.generation || m.body.aad.Some?))
            && (r.Err? ==> b' == sys.b)
  {
    var b, target := sys.b, m.nonce.num;
    ResyncForwards(b, target, t.resync);
    WideApply(b, m, t);
    if OffersClear(b, t.resync) && WithinBudgets(b, target) {
      ForwardedLinked(sys, target);
      var sys1 := sys.(b := Forwarded(b, target));
      if b.incoming.slot.Some? {
        OpensAfterEviction(sys1, m, t.open);
      } else {
        OpensAtCounter(sys1, m, t.open);
      }
    }
  }

  /** The large-gap branch: jump on a clone, open there, keep the clone. */
  lemma WideApply(b: Session, m: Message, t: Times)
    requires LargeGap(b, m.nonce) && KeyFits(m)
    ensures var (trial, jumped) := Resync(b, m.nonce.num, t.resync);
            && (jumped.Err? ==> ApplySync(b, m, t) == (b, Err(jumped.error)))
            && (jumped.Ok? && Dispatch(trial, m, t.open).1 == Ok(Synchronize(m.nonce.num)) ==>
                  ApplySync(b, m, t) == (Dispatch(trial, m, t.open).0, Ok(jumped.value)))
  {}

  /** The same for the whole call: what the caller's live session is, and that the peers are still linked. */
  lemma CrossGenerationCall(l: Ledger, sys: System, m: Message, p: Packet, t: Times)
    requires Linked(sys) && MessageOk(sys, m) && m.nonce.gen == sys.b.generation + 1
    requires KeyFits(m) && m.body.text == Synchronize(m.nonce.num) && p.msg == Some(m)
    ensures var (_, live', v) := ProcessSync(l, Some(sys.b), p, t);
            && (v.Accepted? <==>
                  && Admitted(l, p, t) && m.nonce.num <= sys.b.maxSkip
                  && (m.body.aad.None? || SecretOf(sys, m.nonce.gen) == SecretOf(sys, sys.b.generation)))
            && live'.Some? && Linked(sys.(b := live'.value))
            && (v.Accepted? ==> v.skipped == 0 && live'.value.generation == sys.a.generation && live'.value.recv.count == m.nonce.num + 1)
            && (!v.Accepted? ==> live'.value == sys.b)
  {
    CrossGenerationRecoversExactly(sys, m, t);
  }
}
