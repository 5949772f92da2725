/**
 The bookkeeping around a rekey: when an offer is re-sent and when it counts as stale, which
 carriers may touch the incoming slot, how often an acknowledgement is owed, which key
 pairs are retained, and how far a session may jump over its whole life.
 */
module RekeyBookkeeping {
  import opened Symbolic
  import opened RatchetSpec
  import opened RatchetRuns
  import opened Receiving
  import opened ConfirmQueue

  // ----- Re-sending an own offer -----

  /** At least so many seconds have passed on one of the two clocks. */
  predicate Passed(now: Clock, since: Clock, seconds: nat) {
    now.mono >= since.mono + seconds || now.unix >= since.unix + seconds
  }

  /**
   While an offer waits for its acknowledgement, a send carries it again if and only if
   fifteen seconds have passed, on either clock, since it was last attached.  It then
   rides on the new number from now on; otherwise nothing about it changes.
   */
  lemma ResendExactly(s: Session, text: Plaintext, env: Env)
    requires OneCarrier(s) && s.outgoing.Some? && s.generation < GEN_MAX
    ensures var (s', r) := Encrypt(s, text, env);
            && r.Ok? && r.value.nonce.num == s.send.count && r.value.body.Sealed? && |s'.queue| == 1
            && (r.value.body.aad.Some? <==> Passed(env.now, s.queue[0].attached, 15))
            && (r.value.body.aad.Some? ==> r.value.body.aad.value == s.outgoing.value.payload)
            && (r.value.body.aad.Some? ==> s'.queue[0].at == s.send.count && s'.queue[0].attached == env.now)
            && (r.value.body.aad.None? ==> s'.queue == s.queue)
  {
    QueueOfOne(s.queue, env.now);
  }

  /** The carrier that is due is the first one, whatever queue a snapshot brings back. */
  lemma {:induction false} FirstDueExactly(queue: seq<Carrier>, now: Clock, i: nat)
    requires i <= |queue| && forall j :: 0 <= j < i ==> !Passed(now, queue[j].attached, 15)
    ensures i < |queue| && Passed(now, queue[i].attached, 15) ==> FirstDue(queue, now) == Some(queue[i])
    ensures i == |queue| ==> FirstDue(queue, now).None?
    decreases i
  {
    if i > 0 {
      assert forall j :: 0 <= j < |queue| - 1 ==> queue[1..][j] == queue[j + 1];
      FirstDueExactly(queue[1..], now, i - 1);
    }
  }

  /** The others stay, in order. */
  lemma {:induction false} FreshStayInOrder(before: seq<Carrier>, c: Carrier, after: seq<Carrier>, now: Clock)
    ensures FreshCarriers(before + [c] + after, now)
         == FreshCarriers(before, now) + (if Passed(now, c.attached, 15) then [] else [c]) + FreshCarriers(after, now)
    decreases |before|
  {
    if before == [] {
      assert before + [c] + after == [c] + after && ([c] + after)[1..] == after;
    } else {
      assert (before + [c] + after)[1..] == before[1..] + [c] + after;
      FreshStayInOrder(before[1..], c, after, now);
    }
  }

  /** A carrier attached again goes behind those still fresh, with its payload and its first attachment. */
  lemma ResentGoesLast(s: Session, num: nat, env: Env)
    requires FirstDue(s.queue, env.now).Some?
    ensures var (s', r) := Attach(s, num, env);
            var c := FirstDue(s.queue, env.now).value;
            r == Ok(Some(c.payload)) && s' == s.(queue := FreshCarriers(s.queue, env.now) + [Carrier(num, env.now, c.first, c.payload)])
  {}

  /** An offer of the explicit request waits under the provisional number 0, and rides on its first message after fifteen seconds. */
  lemma ExplicitOfferWaits(s: Session, peer: PublicKey, env: Env, at: nat)
    requires OneCarrier(s) && s.outgoing.None? && s.incoming.slot.None? && env.eph.Some?
    ensures var s' := DhRekey(s, peer, env).0;
            OneCarrier(s') && s'.queue[0].attached == env.now && (ProcessAck(s', at).1 <==> at == 0)
  {
    var s' := DhRekey(s, peer, env).0;
    assert s'.queue[0].at == 0;
  }

  // ----- Staleness of the peer's offer -----

  /** Both first-seen stamps are set. */
  predicate Stamped(i: Incoming) {
    i.slot.Some? && i.attachedUnix.Some? && i.attachedMono.Some?
  }

  function FirstSeen(i: Incoming): Clock
    requires Stamped(i)
  {
    Clock(i.attachedMono.value, i.attachedUnix.value)
  }

  /** A proposal is stale exactly after sixty seconds on either clock. */
  lemma StaleExactly(i: Incoming, now: Clock)
    requires Stamped(i)
    ensures IncomingStale(i, now) <==> Passed(now, FirstSeen(i), 60)
  {}

  datatype Seen = Seen(nonce: Nonce, offer: Payload, now: Clock)

  ghost function StageAll(s: Session, carriers: seq<Seen>): Session
    decreases |carriers|
  {
    if carriers == [] then s else StageAll(Stage(s, carriers[0].nonce, carriers[0].offer, carriers[0].now).0, carriers[1..])
  }

  lemma StagedAgain(s: Session, c: Seen)
    requires Stamped(s.incoming) && s.incoming.carrierGen == Some(c.nonce.gen)
    ensures var s' := Stage(s, c.nonce, c.offer, c.now).0;
            Stamped(s'.incoming) && s'.incoming.carrierGen == s.incoming.carrierGen && FirstSeen(s'.incoming) == FirstSeen(s.incoming)
  {}

  /** However often the peer re-sends it in the same generation, its age counts from the first carrier. */
  lemma {:induction false} ResentProposalAges(s: Session, carriers: seq<Seen>, now: Clock)
    requires Stamped(s.incoming)
    requires forall i :: 0 <= i < |carriers| ==> s.incoming.carrierGen == Some(carriers[i].nonce.gen)
    ensures var s' := StageAll(s, carriers);
            Stamped(s'.incoming) && (IncomingStale(s'.incoming, now) <==> Passed(now, FirstSeen(s.incoming), 60))
    decreases |carriers|
  {
    if carriers == [] {
      StaleExactly(s.incoming, now);
    } else {
      StagedAgain(s, carriers[0]);
      ResentProposalAges(Stage(s, carriers[0].nonce, carriers[0].offer, carriers[0].now).0, carriers[1..], now);
    }
  }

  /** A proposal of a later generation that replaces it does not inherit its age. */
  lemma SupersedingProposalIsFresh(s: Session, c: Seen, now: Clock)
    requires s.incoming.carrierGen.Some? && s.incoming.carrierGen.value < c.nonce.gen && s.generation <= c.nonce.gen
    requires c.offer.ct.Encapsulation?
    ensures var s' := Stage(s, c.nonce, c.offer, c.now).0;
            Stamped(s'.incoming) && (IncomingStale(s'.incoming, now) <==> Passed(now, c.now, 60))
  {
    HistoryNeverConsulted(c.offer.ct, s.pair, s.history);
    StaleExactly(Stage(s, c.nonce, c.offer, c.now).0.incoming, now);
  }

  /** A carrier of an earlier generation than the session's, or than the pending proposal's, never touches anything in Phase 1. */
  lemma OutdatedCarrierIgnored(s: Session, c: Seen)
    requires c.nonce.gen < s.generation || (s.incoming.carrierGen.Some? && c.nonce.gen < s.incoming.carrierGen.value)
    ensures Stage(s, c.nonce, c.offer, c.now) == (s, Ok(()))
  {}

  /** After a commit or a cancellation the unix stamp starts anew with the next proposal. */
  lemma NextProposalUnixStamp(s: Session, c: Seen)
    requires c.nonce.gen >= s.generation && c.offer.ct.Encapsulation?
    ensures var s' := Stage(CancelIncoming(s), c.nonce, c.offer, c.now).0;
            Stamped(s'.incoming) && s'.incoming.attachedUnix == Some(c.now.unix) && s'.incoming.carrierSeq == Some(c.nonce.num)
  {
    HistoryNeverConsulted(c.offer.ct, s.pair, s.history);
  }

  // ----- Acknowledgements owed -----

  /**
   A commit owes an acknowledgement of the carrier exactly if it has not been handed
   out before: once the caller has taken it, the commit queues no second one.
   */
  lemma AckOwedOnce(s: Session, num: nat)
    requires s.incoming.slot.Some?
    ensures CommitAt(s, num).ackSeq == if s.ackSeq.Some? then s.ackSeq else s.incoming.carrierSeq
    ensures TakeAck(s).1 == s.ackSeq && CommitAt(TakeAck(s).0, num).ackSeq.None?
    ensures CommitAt(s, num).incoming.carrierSeq.None? && CancelIncoming(s).incoming.carrierSeq.None?
  {}

  // ----- What a delivery is reported as -----

  /**
   The outcome of the rekey-aware path: a proposal is reported for an authenticated carrier
   of the current generation, a skipped message for a cached key without one, and a
   commit for everything opened on a chain.
   */
  lemma OutcomeExactly(s: Session, m: Message, now: Clock)
    requires DecryptRekey(s, m, now).1.Ok? && s.generation <= GEN_MAX
    ensures var (s', r) := DecryptRekey(s, m, now);
            var late := s.previous.Some? && m.nonce.gen == s.previous.value.gen;
            && (r.value.1 == Skipped <==> m.nonce in s.skip && (late || m.fields == NO_FIELDS))
            && (r.value.1 == ProposalDerived <==> !late && m.fields != NO_FIELDS && (m.nonce in s.skip || s'.generation == s.generation))
  {
    var aad := BuildAad(m.fields).value;
    assert m.fields == NO_FIELDS <==> aad.None?;
    if !(s.previous.Some? && m.nonce.gen == s.previous.value.gen) {
      StagedSlotOnly(s, m.nonce, aad, now);
      var s1 := Staged(s, m.nonce, aad, now).0;
      assert s1.skip == s.skip;
      OpenedOutcome(s1, m.nonce, m.body, aad);
    }
  }

  lemma OpenedOutcome(s: Session, n: Nonce, body: Cipher, aad: Option<Payload>)
    requires AfterStaging(s, n, body, aad).1.Ok? && s.generation < GEN_MAX
    ensures var (s', r) := AfterStaging(s, n, body, aad);
            && (r.value.1 == Skipped <==> n in s.skip && aad.None?)
            && (r.value.1 == ProposalDerived <==> aad.Some? && (n in s.skip || s'.generation == s.generation))
  {}

  // ----- The last generation, and the retained one -----

  /** In the last generation nothing is sent and nothing is received. */
  lemma ExhaustedRefusesAll(s: Session, m: Message, text: Plaintext, env: Env, now: Clock)
    requires s.generation == GEN_MAX
    ensures Dispatch(s, m, now) == (s, Err(GenerationExhausted)) && Encrypt(s, text, env).1 == Err(GenerationExhausted)
  {}

  /** The watermark of the retained chain covers every late delivery and never falls. */
  lemma LateDeliveryRaisesMark(s: Session, n: Nonce, body: Cipher, aad: Option<Payload>)
    requires s.previous.Some? && n.gen == s.previous.value.gen && FromPrevious(s, n, body, aad).1.Ok?
    ensures var s' := FromPrevious(s, n, body, aad).0;
            && s'.prevHighest.Some? && s'.prevHighest.value >= n.num
            && (s.prevHighest.Some? ==> s'.prevHighest.value >= s.prevHighest.value)
  {}

  // ----- Retained key pairs over runs -----

  /** What sending and receiving never touch. */
  predicate SameBooks(s: Session, s': Session) {
    s'.pair == s.pair && s'.history == s.history && s'.maxHistory == s.maxHistory && s'.resyncTotal == s.resyncTotal
  }

  lemma SendKeepsBooks(s: Session, text: Plaintext, env: Env)
    ensures SameBooks(s, Encrypt(s, text, env).0)
  {}

  lemma PreviousKeepsBooks(s: Session, n: Nonce, body: Cipher, aad: Option<Payload>)
    requires s.previous.Some? && n.gen == s.previous.value.gen
    ensures SameBooks(s, FromPrevious(s, n, body, aad).0)
  {}

  lemma OpeningKeepsBooks(s: Session, n: Nonce, body: Cipher, aad: Option<Payload>)
    ensures SameBooks(s, AfterStaging(s, n, body, aad).0)
  {}

  lemma ReceiveKeepsBooks(s: Session, n: Nonce, body: Cipher)
    ensures SameBooks(s, Decrypt(s, n, body).0)
  {
    if s.previous.Some? && n.gen == s.previous.value.gen { PreviousKeepsBooks(s, n, body, None); }
  }

  lemma ReceiveRekeyKeepsBooks(s: Session, m: Message, now: Clock)
    ensures SameBooks(s, DecryptRekey(s, m, now).0)
  {
    if BuildAad(m.fields).Ok? {
      var aad := BuildAad(m.fields).value;
      if s.previous.Some? && m.nonce.gen == s.previous.value.gen {
        PreviousKeepsBooks(s, m.nonce, m.body, aad);
      } else {
        StagedSlotOnly(s, m.nonce, aad, now);
        OpeningKeepsBooks(Staged(s, m.nonce, aad, now).0, m.nonce, m.body, aad);
      }
    }
  }

  /** Only a jump and a commit of an own offer change these books. */
  lemma {:induction false} OpKeepsBooks(s: Session, op: Op)
    requires !op.AckArrived? && !op.Resynchronise?
    ensures SameBooks(s, Apply(s, op))
  {
    match op
    case Send(text, env) => SendKeepsBooks(s, text, env);
    case Receive(n, body) => ReceiveKeepsBooks(s, n, body);
    case ReceiveRekey(m, now) => ReceiveRekeyKeepsBooks(s, m, now);
    case _ =>
  }

  /** The key pair an operation replaces: the one in use when an own offer is committed. */
  ghost function ReplacedBy(s: Session, op: Op): seq<KeyPair> {
    if op.AckArrived? && s.outgoing.Some? && ProcessAck(s, op.at).1 then [s.pair] else []
  }

  /** The key pairs a run replaces, oldest first. */
  ghost function Replaced(s: Session, ops: seq<Op>): seq<KeyPair>
    decreases |ops|
  {
    if ops == [] then []
    else ReplacedBy(s, ops[0]) + Replaced(Apply(s, ops[0]), ops[1..])
  }

  lemma {:induction false} TrimTwice(a: seq<KeyPair>, b: seq<KeyPair>, bound: nat)
    ensures Trim(Trim(a, bound) + b, bound) == Trim(a + b, bound)
  {}

  /** The last entries of a sequence, as many as there are up to the bound. */
  ghost predicate LastOf(last: seq<KeyPair>, all: seq<KeyPair>, bound: nat) {
    |last| == (if |all| < bound then |all| else bound) && last == all[|all| - |last|..]
  }

  /** Over every run of a session exactly the last three key pairs it has replaced are retained. */
  lemma {:induction false} LastThreePairsRetained(root: Root, isInitiator: bool, pair: KeyPair, peer: Option<PublicKey>, ops: seq<Op>)
    ensures var s := Fresh(root, isInitiator, pair, peer); LastOf(RunFrom(s, ops).history, Replaced(s, ops), 3)
  {
    var s := Fresh(root, isInitiator, pair, peer);
    RunRetainsLast(s, ops);
    assert [] + Replaced(s, ops) == Replaced(s, ops);
  }

  lemma {:induction false} RunRetainsLast(s: Session, ops: seq<Op>)
    requires |s.history| <= s.maxHistory
    ensures RunFrom(s, ops).history == Trim(s.history + Replaced(s, ops), s.maxHistory)
    decreases |ops|
  {
    if ops == [] {
      assert s.history + [] == s.history;
    } else {
      OpReplaces(s, ops[0]);
      RunRetainsLast(Apply(s, ops[0]), ops[1..]);
      JoinReplaced(s.history, ReplacedBy(s, ops[0]), Replaced(Apply(s, ops[0]), ops[1..]), s.maxHistory);
    }
  }

  lemma {:induction false} JoinReplaced(history: seq<KeyPair>, first: seq<KeyPair>, rest: seq<KeyPair>, bound: nat)
    ensures Trim(Trim(history + first, bound) + rest, bound) == Trim(history + (first + rest), bound)
  {
    TrimTwice(history + first, rest, bound);
    assert history + (first + rest) == history + first + rest;
  }

  lemma {:induction false} OpReplaces(s: Session, op: Op)
    requires |s.history| <= s.maxHistory
    ensures var s' := Apply(s, op);
            s'.maxHistory == s.maxHistory && s'.history == Trim(s.history + ReplacedBy(s, op), s.maxHistory) && |s'.history| <= s.maxHistory
  {
    assert s.history + [] == s.history;
    if op.Resynchronise? {
      ResyncKeepsPairs(s, op.target, op.now);
    } else if !op.AckArrived? {
      OpKeepsBooks(s, op);
    }
  }

  lemma ResyncKeepsPairs(s: Session, target: nat, now: Clock)
    ensures var s' := Resync(s, target, now).0; s'.pair == s.pair && s'.history == s.history && s'.maxHistory == s.maxHistory
  {}

  // ----- Jumps over runs -----

  /** The sum of all jumps of a run. */
  ghost function Jumps(s: Session, ops: seq<Op>): nat
    decreases |ops|
  {
    if ops == [] then 0
    else
      var jump := if ops[0].Resynchronise? then Resync(s, ops[0].target, ops[0].now).1 else Err(StaleTarget);
      (if jump.Ok? then jump.value else 0) + Jumps(Apply(s, ops[0]), ops[1..])
  }

  lemma {:induction false} OpJumps(s: Session, op: Op)
    requires s.resyncTotal <= SYNC_MAX_CUMULATIVE
    ensures Apply(s, op).resyncTotal <= SYNC_MAX_CUMULATIVE
    ensures !op.Resynchronise? ==> Apply(s, op).resyncTotal == s.resyncTotal
    ensures op.Resynchronise? ==>
              var r := Resync(s, op.target, op.now).1;
              && Apply(s, op).resyncTotal == s.resyncTotal + (if r.Ok? then r.value else 0)
              && (r.Ok? ==> r.value <= SYNC_MAX_GAP && Apply(s, op).recv.count == s.recv.count + r.value)
  {
    if !op.AckArrived? && !op.Resynchronise? { OpKeepsBooks(s, op); }
  }

  /** Over its whole life a session jumps over at most twenty thousand positions, whatever is asked of it. */
  lemma {:induction false} JumpsBounded(s: Session, ops: seq<Op>)
    requires s.resyncTotal <= 20000
    ensures s.resyncTotal + Jumps(s, ops) == RunFrom(s, ops).resyncTotal <= 20000
    decreases |ops|
  {
    if ops != [] {
      OpJumps(s, ops[0]);
      JumpsBounded(Apply(s, ops[0]), ops[1..]);
    }
  }
}
