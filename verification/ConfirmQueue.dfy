/** One carrier per outgoing proposal: the queue of unacknowledged offers over every run of a session. */
module ConfirmQueue {
  import opened Symbolic
  import opened RatchetSpec
  import opened RatchetRuns

  /** The queue is empty exactly when nothing is pending, and otherwise holds the staged offer. */
  ghost predicate OneCarrier(s: Session) {
    && |s.queue| <= 1
    && (s.outgoing.Some? <==> |s.queue| == 1)
    && (s.outgoing.Some? ==> s.queue[0].payload == s.outgoing.value.payload)
  }

  lemma {:induction false} QueueOfOne(queue: seq<Carrier>, now: Clock)
    requires |queue| <= 1
    ensures queue == [] ==> FirstDue(queue, now).None? && FreshCarriers(queue, now) == []
    ensures |queue| == 1 && RetryDue(queue[0], now) ==> FirstDue(queue, now) == Some(queue[0]) && FreshCarriers(queue, now) == []
    ensures |queue| == 1 && !RetryDue(queue[0], now) ==> FirstDue(queue, now).None? && FreshCarriers(queue, now) == queue
  {
    if |queue| == 1 {
      assert queue[1..] == [] && queue == [queue[0]];
      assert FirstDue(queue[1..], now).None? && FreshCarriers(queue[1..], now) == [];
    }
  }

  /** What one operation may do to the slot and the queue. */
  ghost predicate QueueStep(s: Session, s': Session)
    requires OneCarrier(s)
  {
    && OneCarrier(s')
    && (s.outgoing.Some? && s'.outgoing.Some? ==>
          s'.outgoing == s.outgoing && s'.queue[0].first == s.queue[0].first && s'.queue[0].payload == s.queue[0].payload)
    && (s.outgoing.None? && s'.outgoing.Some? ==> s.incoming.slot.None? && s'.queue[0].first == s'.queue[0].attached)
  }

  lemma {:induction false} SendStep(s: Session, text: Plaintext, env: Env)
    requires OneCarrier(s)
    ensures QueueStep(s, Encrypt(s, text, env).0)
  {
    QueueOfOne(s.queue, env.now);
  }

  lemma {:induction false} RaceStep(s: Session, num: nat, carries: bool)
    requires OneCarrier(s)
    ensures QueueStep(s, ResolveRace(s, num, carries))
  {}

  lemma {:induction false} ReceiveStep(s: Session, n: Nonce, body: Cipher)
    requires OneCarrier(s)
    ensures QueueStep(s, Decrypt(s, n, body).0)
  {}

  lemma {:induction false} AfterStagingStep(s: Session, n: Nonce, body: Cipher, aad: Option<Payload>)
    requires OneCarrier(s)
    ensures QueueStep(s, AfterStaging(s, n, body, aad).0)
  {
    if n in s.skip {
      RaceStep(FromCache(s, n, body, aad).0, n.num, aad.Some?);
    } else {
      RaceStep(FromChain(s, n, body, aad).0, n.num, aad.Some?);
    }
  }

  lemma {:induction false} ReceiveRekeyStep(s: Session, m: Message, now: Clock)
    requires OneCarrier(s)
    ensures QueueStep(s, DecryptRekey(s, m, now).0)
  {
    var aad := BuildAad(m.fields);
    if aad.Ok? {
      var s1 := if aad.value.Some? then Stage(s, m.nonce, aad.value.value, now).0 else s;
      AfterStagingStep(s1, m.nonce, m.body, aad.value);
    }
  }

  /** No operation stages a second offer, drops the carrier of a live one, or rewrites its first stamp. */
  lemma {:induction false} OpStep(s: Session, op: Op)
    requires OneCarrier(s)
    ensures QueueStep(s, Apply(s, op))
  {
    match op
    case Send(text, env) => SendStep(s, text, env);
    case Receive(n, body) => ReceiveStep(s, n, body);
    case ReceiveRekey(m, now) => ReceiveRekeyStep(s, m, now);
    case _ =>
  }

  lemma {:induction false} RunKeepsOneCarrier(s: Session, ops: seq<Op>)
    requires OneCarrier(s)
    ensures OneCarrier(RunFrom(s, ops))
    decreases |ops|
  {
    if ops != [] {
      OpStep(s, ops[0]);
      RunKeepsOneCarrier(Apply(s, ops[0]), ops[1..]);
    }
  }

  /** The offer is neither acknowledged nor cancelled anywhere in the run. */
  ghost predicate StaysPending(s: Session, ops: seq<Op>)
    decreases |ops|
  {
    s.outgoing.Some? && (ops != [] ==> StaysPending(Apply(s, ops[0]), ops[1..]))
  }

  /** Any number of re-sends keeps the offer, its payload and the time it was first attached. */
  lemma {:induction false} ResendsKeepOffer(s: Session, ops: seq<Op>)
    requires OneCarrier(s) && StaysPending(s, ops)
    ensures var e := RunFrom(s, ops);
            && OneCarrier(e) && e.outgoing == s.outgoing
            && e.queue[0].payload == s.outgoing.value.payload && e.queue[0].first == s.queue[0].first
    decreases |ops|
  {
    if ops != [] {
      OpStep(s, ops[0]);
      ResendsKeepOffer(Apply(s, ops[0]), ops[1..]);
    }
  }

  /** So re-sending never makes an unacknowledged offer look fresh to the resync path. */
  lemma {:induction false} ResendsDoNotRejuvenate(s: Session, ops: seq<Op>, now: Clock)
    requires OneCarrier(s) && StaysPending(s, ops)
    ensures OutgoingStale(RunFrom(s, ops).queue, now) <==> Age(now, s.queue[0].first) >= INCOMING_REKEY_TTL
  {
    ResendsKeepOffer(s, ops);
    var queue := RunFrom(s, ops).queue;
    assert Age(now, queue[0].first) == Age(now, s.queue[0].first);
  }
}
