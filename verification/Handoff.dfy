/**
 Entering the next generation: which first messages bring the receiver in, which
 acknowledgements may bring the sender in, and what happens otherwise.
 */
module Handoff {
  import opened Symbolic
  import opened RatchetSpec
  import opened Receiving
  import opened RekeySlots
  import opened NoDesync

  // ----- Sequences of messages -----

  datatype Late = Late(msg: Message, now: Clock)

  /** The receiver refuses all of these, one after the other. */
  ghost predicate AllRefused(b: Session, msgs: seq<Late>)
    decreases |msgs|
  {
    msgs != [] ==> Dispatch(b, msgs[0].msg, msgs[0].now).1.Err? && AllRefused(Dispatch(b, msgs[0].msg, msgs[0].now).0, msgs[1..])
  }

  // ----- A carrier that overtakes the handoff, or a stray one -----

  /** b, unchanged but for a slot that leads to another chain than the one a has moved to. */
  ghost predicate Misled(sys: System, b: Session)
    requires sys.b.generation in sys.offers && sys.b.generation < |sys.eras|
  {
    && b == sys.b.(incoming := b.incoming) && b.incoming.slot.Some?
    && Seed(b.incoming.slot.value.recv) != Seed(Derived(sys, sys.b.generation).recv)
  }

  /** The offer a has made in its new generation, if any, has a secret of its own. */
  predicate FreshSecrets(sys: System)
    requires sys.b.generation in sys.offers
  {
    sys.b.generation + 1 in sys.offers ==> SecretOf(sys, sys.b.generation + 1) != SecretOf(sys, sys.b.generation)
  }

  lemma StaysMisled(sys: System, b: Session, m: Message, now: Clock)
    requires Linked(sys) && MessageOk(sys, m) && m.nonce.gen == sys.b.generation + 1 && FreshSecrets(sys)
    requires Misled(sys, b) || (b == sys.b && EarlyCarrier(b, m))
    ensures Misled(sys, Staged(b, m.nonce, m.body.aad, now).0)
  {
    if m.body.aad.Some? && !DropsCarrier(b, m.nonce) { EarlyCarrierStages(sys, b, m, now); }
  }

  /** A misled b refuses every message of the new generation, plain or a carrier, and stays misled. */
  lemma MisledRefuses(sys: System, b: Session, m: Message, now: Clock)
    requires Linked(sys) && MessageOk(sys, m) && m.nonce.gen == sys.b.generation + 1 && FreshSecrets(sys)
    requires Misled(sys, b) || (b == sys.b && EarlyCarrier(b, m))
    ensures Dispatch(b, m, now).1.Err? && Misled(sys, Dispatch(b, m, now).0)
  {
    var g, h := sys.b.generation, m.nonce.gen;
    var s := Staged(b, m.nonce, m.body.aad, now).0;
    StaysMisled(sys, b, m, now);
    DispatchStages(b, m, now);
    PendingIsNew(sys, g);
    OpensOnPending(s, sys.eras[g].seed, sys.eras[h].seed, m);
  }

  lemma {:induction false} MisledRefusesAll(sys: System, b: Session, later: seq<Late>)
    requires Linked(sys) && sys.a.generation == sys.b.generation + 1 && FreshSecrets(sys) && Misled(sys, b)
    requires forall i :: 0 <= i < |later| ==> MessageOk(sys, later[i].msg) && later[i].msg.nonce.gen == sys.a.generation
    ensures AllRefused(b, later)
    decreases |later|
  {
    if later != [] {
      MisledRefuses(sys, b, later[0].msg, later[0].now);
      MisledRefusesAll(sys, Dispatch(b, later[0].msg, later[0].now).0, later[1..]);
    }
  }

  /**
   If the first message of the new generation to reach b is itself a carrier, with a
   secret of its own, the handoff is lost: it fails, and from then on b refuses every
   message of that generation, carriers and plain messages alike, however many arrive.
   */
  lemma {:induction false} EarlyCarrierLosesHandoff(sys: System, m: Message, now: Clock, later: seq<Late>)
    requires Linked(sys) && MessageOk(sys, m) && EarlyCarrier(sys.b, m)
    requires SecretOf(sys, m.nonce.gen) != SecretOf(sys, sys.b.generation)
    requires forall i :: 0 <= i < |later| ==> MessageOk(sys, later[i].msg) && later[i].msg.nonce.gen == m.nonce.gen
    ensures AllRefused(sys.b, [Late(m, now)] + later)
  {
    MisledRefuses(sys, sys.b, m, now);
    MisledRefusesAll(sys, Dispatch(sys.b, m, now).0, later);
    assert ([Late(m, now)] + later)[1..] == later;
  }

  /** So delivering such a carrier keeps the link exactly when it brings b in. */
  lemma EarlyCarrierExactly(sys: System, m: Message, now: Clock)
    requires Linked(sys) && MessageOk(sys, m) && EarlyCarrier(sys.b, m)
    ensures var (b', r) := Dispatch(sys.b, m, now);
            && (r.Ok? <==> m.nonce.num <= sys.b.maxSkip && SecretOf(sys, m.nonce.gen) == SecretOf(sys, sys.b.generation))
            && (r.Ok? ==> r.value == m.body.text && b'.generation == sys.a.generation && b'.recv.count == m.nonce.num + 1)
            && (r.Ok? <==> Linked(sys.(b := b')))
  {
    if SecretOf(sys, m.nonce.gen) == SecretOf(sys, sys.b.generation) {
      EarlyCarrierSameSecret(sys, m, now);
    } else {
      MisledRefuses(sys, sys.b, m, now);
      Rebase(sys, Dispatch(sys.b, m, now).0);
    }
  }

  /**
   A stray whose offer reaches the slot while b has the handoff still to make: the
   first plain message of the new generation within max_skip then brings b in if and
   only if the stray's offer leads to the chain a has moved to.
   */
  lemma StrayHandoffExactly(sys: System, m: Message, now: Clock, plain: Message, when: Clock)
    requires Linked(sys) && sys.a.generation == sys.b.generation + 1 && Misfit(m) && ReachesSlot(sys.b, m)
    requires MessageOk(sys, plain) && plain.nonce.gen == sys.a.generation && plain.fields == NO_FIELDS
    requires plain.nonce.num <= sys.b.maxSkip
    ensures Dispatch(Dispatch(sys.b, m, now).0, plain, when).1 == Ok(plain.body.text)
       <==> ProposalFrom(sys.b, m).recv == Derived(sys, sys.b.generation).recv
  {
    var g := sys.b.generation;
    StrayTouchesSlotExactly(sys.b, m, now);
    var b := Dispatch(sys.b, m, now).0;
    DispatchStages(b, plain, when);
    PendingIsNew(sys, g);
    OpensOnPending(b, sys.eras[g].seed, sys.eras[g + 1].seed, plain);
  }

  /** If it leads elsewhere, b refuses everything of the new generation, however much arrives. */
  lemma {:induction false} StrayLosesHandoff(sys: System, m: Message, now: Clock, later: seq<Late>)
    requires Linked(sys) && sys.a.generation == sys.b.generation + 1 && Misfit(m) && ReachesSlot(sys.b, m)
    requires ProposalFrom(sys.b, m).recv != Derived(sys, sys.b.generation).recv && FreshSecrets(sys)
    requires forall i :: 0 <= i < |later| ==> MessageOk(sys, later[i].msg) && later[i].msg.nonce.gen == sys.a.generation
    ensures AllRefused(sys.b, [Late(m, now)] + later)
  {
    StrayTouchesSlotExactly(sys.b, m, now);
    MisledRefusesAll(sys, Dispatch(sys.b, m, now).0, later);
    assert ([Late(m, now)] + later)[1..] == later;
  }

  // ----- The next message -----

  /** What b needs for the next message of a: the state after the send, and the message. */
  ghost predicate WithinReach(sys: System, m: Message)
    requires HistoryOk(sys) && MessageOk(sys, m)
  {
    if m.nonce.gen == sys.b.generation then m.nonce.num <= sys.b.recv.count + sys.b.maxSkip
    else
      && m.nonce.num <= sys.b.maxSkip
      && (m.body.aad.None?
          || (sys.b.generation in sys.offers && SecretOf(sys, m.nonce.gen) == SecretOf(sys, sys.b.generation)))
  }

  /**
   In every reachable state, whatever a sends next is accepted by b, with the text
   a sent, if and only if the gap is within max_skip and b is not asked to enter a
   generation on a carrier with a secret of its own.
   */
  lemma NextMessageArrives(sys: System, text: Plaintext, env: Env, now: Clock)
    requires Linked(sys) && Enabled(sys, SendA(text, env))
    ensures var sys', m := Execute(sys, SendA(text, env)), Encrypt(sys.a, text, env).1.value;
            && Linked(sys') && MessageOk(sys', m)
            && (Dispatch(sys.b, m, now).1 == Ok(text) <==> WithinReach(sys', m))
            && (Dispatch(sys.b, m, now).1.Ok? ==> Dispatch(sys.b, m, now).1.value == text)
  {
    var sys', m := Execute(sys, SendA(text, env)), Encrypt(sys.a, text, env).1.value;
    SendShape(sys.a, text, env);
    SendKeepsLink(sys, text, env);
    assert m == sys'.log[|sys.log|] && MessageOk(sys', m);
    ReachDecides(sys', m, now);
  }

  lemma ReachDecides(sys: System, m: Message, now: Clock)
    requires Linked(sys) && MessageOk(sys, m) && m.nonce.gen == sys.a.generation < GEN_MAX && m.nonce.num + 1 == sys.a.send.count
    requires m.nonce.gen == sys.b.generation ==> m.nonce !in sys.b.seen && sys.b.recv.count <= m.nonce.num
    ensures var r := Dispatch(sys.b, m, now).1;
            (r.Ok? <==> WithinReach(sys, m)) && (r.Ok? ==> r.value == m.body.text)
  {
    if m.nonce.gen == sys.b.generation {
      DeliverCurrent(sys, m, now);
    } else if m.fields == NO_FIELDS {
      DeliverNext(sys, m, now);
    } else {
      EarlyCarrierExactly(sys, m, now);
    }
  }

  // ----- Acknowledgements -----

  /** The state after an acknowledgement naming the carrier number, whatever b has done. */
  ghost function Acknowledged(sys: System): System
    requires sys.a.outgoing.Some? && sys.a.queue != []
  {
    var a' := ProcessAck(sys.a, sys.a.queue[0].at).0;
    sys.(a := a', eras := sys.eras + [Era(a'.root, a'.send.key)])
  }

  lemma AcknowledgedCommits(sys: System)
    requires Linked(sys) && sys.a.outgoing.Some?
    ensures sys.a.queue != [] && Acknowledged(sys).a == CommitOutgoing(sys.a)
    ensures Acknowledged(sys).a.generation == sys.a.generation + 1
    ensures Acknowledged(sys).a.send == Chain(Derived(sys, sys.a.generation).recv, 0)
  {
    assert ProcessAck(sys.a, sys.a.queue[0].at).0 == CommitOutgoing(sys.a) by {
      assert sys.a.queue[0].at == sys.a.queue[0].at;
    }
  }

  /** b holds the offer a is about to commit. */
  predicate Ready(sys: System) {
    sys.b.generation == sys.a.generation && sys.b.incoming.slot.Some?
  }

  /** A message of the chain a moves to, plain or a carrier of an offer with a ciphertext of its own. */
  ghost predicate OfNewChain(sys: System, m: Message)
    requires HistoryOk(sys) && sys.a.generation in sys.offers
  {
    && m.nonce.gen == sys.a.generation + 1 && m.body.Sealed? && m.body.nonce == m.nonce
    && m.body.key == MsgKey(Advance(Derived(sys, sys.a.generation).recv, m.nonce.num)) && m.fields == FieldsOf(m.body.aad)
    && (m.body.aad.Some? ==> m.body.aad.value.ct != sys.offers[sys.a.generation].payload.ct)
  }

  /** b has not staged the offer, and the slot, whatever stray carriers have put there, leads to another chain. */
  ghost predicate Unready(sys: System, b: Session)
    requires HistoryOk(sys) && sys.a.generation in sys.offers
  {
    && b == sys.b.(incoming := b.incoming)
    && (b.generation == sys.a.generation ==>
          b.incoming.slot.Some? ==>
            Seed(b.incoming.slot.value.recv) != Seed(Derived(sys, sys.a.generation).recv))
  }

  lemma UnreadyRefuses(sys: System, b: Session, m: Message, now: Clock)
    requires Linked(sys) && sys.a.outgoing.Some? && Unready(sys, b) && OfNewChain(sys, m)
    ensures Dispatch(b, m, now).1.Err? && Unready(sys, Dispatch(b, m, now).0)
  {
    var g := sys.a.generation;
    DispatchStages(b, m, now);
    if b.generation == g {
      StagedSlotOnly(b, m.nonce, m.body.aad, now);
      if m.body.aad.Some? { HistoryNeverConsulted(m.body.aad.value.ct, b.pair, b.history); }
      var s := Staged(b, m.nonce, m.body.aad, now).0;
      assert Unready(sys, s);
      PendingIsNew(sys, g);
      OpensOnPending(s, sys.eras[g].seed, Derived(sys, g).recv, m);
    }
  }

  lemma {:induction false} UnreadyRefusesAll(sys: System, b: Session, msgs: seq<Late>)
    requires Linked(sys) && sys.a.outgoing.Some? && Unready(sys, b)
    requires forall i :: 0 <= i < |msgs| ==> OfNewChain(sys, msgs[i].msg)
    ensures AllRefused(b, msgs)
    decreases |msgs|
  {
    if msgs != [] {
      UnreadyRefuses(sys, b, msgs[0].msg, msgs[0].now);
      UnreadyRefusesAll(sys, Dispatch(b, msgs[0].msg, msgs[0].now).0, msgs[1..]);
    }
  }

  /**
   An acknowledgement names a carrier number only, and numbers restart in every
   generation.  Committing on one is safe if and only if b holds the offer: then b
   follows on any first plain message up to max_skip and the peers stay linked;
   otherwise b refuses everything a sends on its new chain, however much that is.
   */
  lemma {:induction false} AckSafeExactly(sys: System, m: Message, now: Clock, msgs: seq<Late>)
    requires Linked(sys) && sys.a.outgoing.Some?
    requires OfNewChain(sys, m) && m.body.aad.None? && m.nonce.num <= sys.b.maxSkip
    requires forall i :: 0 <= i < |msgs| ==> OfNewChain(sys, msgs[i].msg)
    ensures sys.a.queue != [] && Acknowledged(sys).a.generation == sys.a.generation + 1
    ensures Dispatch(sys.b, m, now).1 == Ok(m.body.text) <==> Ready(sys)
    ensures Linked(Acknowledged(sys)) <==> Ready(sys)
    ensures !Ready(sys) ==> AllRefused(sys.b, msgs)
  {
    AcknowledgedCommits(sys);
    if Ready(sys) {
      AckKeepsLink(sys);
      DispatchStages(sys.b, m, now);
      PendingIsNew(sys, sys.a.generation);
      OpensOnPending(sys.b, sys.eras[sys.a.generation].seed, Derived(sys, sys.a.generation).recv, m);
    } else {
      UnreadyRefuses(sys, sys.b, m, now);
      UnreadyRefusesAll(sys, sys.b, msgs);
    }
  }

  /** A carrier of the new chain that reuses the offered ciphertext lets b derive the missing chain after all. */
  lemma ReusedCiphertextExactly(sys: System, m: Message, now: Clock)
    requires Linked(sys) && sys.a.outgoing.Some? && !Ready(sys)
    requires m.nonce.gen == sys.a.generation + 1 && m.body.Sealed? && m.body.nonce == m.nonce && m.fields == FieldsOf(m.body.aad)
    requires m.body.key == MsgKey(Advance(Derived(sys, sys.a.generation).recv, m.nonce.num))
    requires m.body.aad.Some? && m.body.aad.value.ct == sys.offers[sys.a.generation].payload.ct
    ensures Dispatch(sys.b, m, now).1 == Ok(m.body.text) <==> sys.b.generation == sys.a.generation && m.nonce.num <= sys.b.maxSkip
  {
    var b, g := sys.b, sys.a.generation;
    DispatchStages(b, m, now);
    if b.generation == g {
      var s := Staged(b, m.nonce, m.body.aad, now).0;
      assert s == b.(incoming := s.incoming) && s.incoming.slot.Some? && s.incoming.slot.value.recv == Derived(sys, g).recv;
      PendingIsNew(sys, g);
      OpensOnPending(s, sys.eras[g].seed, Derived(sys, g).recv, m);
    }
  }

  /** And a late carrier of the old generation that b can still take repairs the premature commit altogether. */
  lemma LateCarrierRepairs(sys: System, m: Message, now: Clock)
    requires Linked(sys) && sys.a.outgoing.Some? && sys.b.generation == sys.a.generation
    requires MessageOk(sys, m) && m.nonce.gen == sys.b.generation && m.body.aad.Some? && Validate(sys.b, m.nonce).Ok?
    ensures sys.a.queue != [] && Linked(Acknowledged(sys).(b := Dispatch(sys.b, m, now).0))
  {
    DeliverCurrent(sys, m, now);
    var sys1 := sys.(b := Dispatch(sys.b, m, now).0);
    AcknowledgedCommits(sys);
    AckKeepsLink(sys1);
    assert Execute(sys1, AckReachesA) == Acknowledged(sys).(b := sys1.b);
  }
}
