/**
 Acknowledgements at any time.  b hands out the number of the carrier it has taken;
 the number may reach a whenever the network pleases, once, several times or never.
 Over every run an acknowledgement that reaches a in the generation of the offer it
 is for is safe, and one that reaches a later is safe only if a is not waiting for
 that number or b holds the newer offer as well.
 */
module AckLog {
  import opened Symbolic
  import opened RatchetSpec
  import opened ConfirmQueue
  import opened Receiving
  import opened RekeySlots
  import opened NoDesync
  import opened Handoff

  /** An acknowledgement as b hands it out, with the generation whose offer it is for; only the number travels. */
  datatype Ack = Ack(num: nat, gen: nat)

  /** The two peers, the generation of the offer b owes an acknowledgement for, and all that b has handed out. */
  datatype World = World(sys: System, owed: Option<nat>, acks: set<Ack>)

  datatype Event =
    | Exchange(step: Step)
    | HandOut
    | AckArrives(ack: Ack)

  /** a is waiting for this number. */
  predicate Awaited(a: Session, num: nat) {
    exists i :: 0 <= i < |a.queue| && a.queue[i].at == num
  }

  /** The number reaches a. */
  ghost function Acked(sys: System, num: nat): System {
    var a' := ProcessAck(sys.a, num).0;
    sys.(a := a', eras := if a'.generation == sys.a.generation then sys.eras else sys.eras + [Era(a'.root, a'.send.key)])
  }

  /** What b owes after a step: a delivery that leaves an acknowledgement behind leaves one for b's generation of before. */
  ghost function OwedAfter(w: World, step: Step): Option<nat>
    requires Enabled(w.sys, step)
  {
    var b, b' := w.sys.b, Execute(w.sys, step).b;
    if b'.ackSeq.None? then None
    else if b.ackSeq.None? || b'.ackSeq != b.ackSeq || TakesCarrier(w.sys, step) then Some(b.generation)
    else w.owed
  }

  /** b opens a carrier of its own generation. */
  ghost predicate TakesCarrier(sys: System, step: Step)
    requires Enabled(sys, step)
  {
    && step.DeliverToB? && sys.log[step.i].nonce.gen == sys.b.generation && sys.log[step.i].fields != NO_FIELDS
    && Dispatch(sys.b, sys.log[step.i], step.now).1.Ok?
  }

  ghost predicate Possible(w: World, e: Event) {
    match e
    case Exchange(step) => !step.AckReachesA? && Enabled(w.sys, step)
    case HandOut => true
    case AckArrives(ack) => ack in w.acks && (ack.gen == w.sys.a.generation || !Awaited(w.sys.a, ack.num))
  }

  ghost function Happen(w: World, e: Event): World
    requires Possible(w, e)
  {
    match e
    case Exchange(step) => World(Execute(w.sys, step), OwedAfter(w, step), w.acks)
    case HandOut =>
      var (b', num) := TakeAck(w.sys.b);
      World(w.sys.(b := b'), None, if num.Some? && w.owed.Some? then w.acks + {Ack(num.value, w.owed.value)} else w.acks)
    case AckArrives(ack) => w.(sys := Acked(w.sys, ack.num))
  }

  /** b holds the offer of generation h, or has committed it. */
  predicate Holds(b: Session, h: nat) {
    b.generation > h || (b.generation == h && b.incoming.slot.Some?)
  }

  /** Every acknowledgement, owed or handed out, is for an offer b holds or has committed. */
  ghost predicate Honest(w: World) {
    && Linked(w.sys)
    && (w.owed.Some? <==> w.sys.b.ackSeq.Some?) && (w.owed.Some? ==> Holds(w.sys.b, w.owed.value))
    && (forall ack :: ack in w.acks ==> Holds(w.sys.b, ack.gen))
  }

  // ----- One acknowledgement -----

  /** In every linked state a number that reaches a keeps the link if and only if a does not wait for it or b holds the offer. */
  lemma AckExactly(sys: System, num: nat)
    requires Linked(sys)
    ensures Linked(Acked(sys, num)) <==> (Awaited(sys.a, num) ==> Ready(sys))
    ensures Acked(sys, num).b == sys.b
  {
    if Awaited(sys.a, num) {
      assert num == sys.a.queue[0].at;
      AcknowledgedCommits(sys);
      assert Acked(sys, num) == Acknowledged(sys);
      if Ready(sys) { AckKeepsLink(sys); }
    }
  }

  /** In the generation of its offer it is always safe; later on, exactly if it is not awaited or b holds the newer offer too. */
  lemma HandedOutAckExactly(w: World, ack: Ack)
    requires Honest(w) && ack in w.acks
    ensures ack.gen <= w.sys.a.generation
    ensures ack.gen == w.sys.a.generation ==> Ready(w.sys) && Linked(Acked(w.sys, ack.num))
    ensures Linked(Acked(w.sys, ack.num)) <==> (Awaited(w.sys.a, ack.num) ==> Ready(w.sys))
  {
    assert Holds(w.sys.b, ack.gen);
    AckExactly(w.sys, ack.num);
  }

  // ----- Every run -----

  lemma HandOutHonest(w: World)
    requires Honest(w)
    ensures Honest(Happen(w, HandOut))
  {
    var b' := TakeAck(w.sys.b).0;
    Rebase(w.sys, b');
    assert Linked(w.sys.(b := b'));
  }

  /** What a delivery does to the slot, the generation and the acknowledgement of b. */
  lemma DeliverHolds(sys: System, i: nat, now: Clock)
    requires Linked(sys) && Enabled(sys, DeliverToB(i, now))
    ensures var b, b', step := sys.b, Dispatch(sys.b, sys.log[i], now).0, DeliverToB(i, now);
            && (forall h :: Holds(b, h) ==> Holds(b', h))
            && (TakesCarrier(sys, step) || b'.ackSeq != b.ackSeq ==> Holds(b', b.generation))
  {
    var m := sys.log[i];
    assert MessageOk(sys, m);
    if m.nonce.gen < sys.b.generation {
      DeliverOld(sys, m, now);
    } else if m.nonce.gen == sys.b.generation {
      DeliverCurrent(sys, m, now);
    } else if EarlyCarrier(sys.b, m) {
      EarlyCarrierSameSecret(sys, m, now);
    } else {
      DeliverNext(sys, m, now);
    }
  }

  lemma ExchangeHolds(sys: System, step: Step)
    requires Linked(sys) && Enabled(sys, step)
    ensures var b, b' := sys.b, Execute(sys, step).b;
            && (forall h :: Holds(b, h) ==> Holds(b', h))
            && (TakesCarrier(sys, step) || b'.ackSeq != b.ackSeq ==> Holds(b', b.generation))
  {
    match step
    case SendA(text, env) =>
    case AckReachesA =>
    case DeliverToB(i, now) => DeliverHolds(sys, i, now);
    case StrayToB(m, now) => StrayTouchesSlotExactly(sys.b, m, now);
    case SendB(text, env) => SendKeepsReceiver(sys.b, text, env);
  }

  lemma EventHonest(w: World, e: Event)
    requires Honest(w) && Possible(w, e)
    ensures Honest(Happen(w, e))
  {
    match e
    case Exchange(step) =>
      StepKeepsLink(w.sys, step);
      ExchangeHolds(w.sys, step);
    case HandOut => HandOutHonest(w);
    case AckArrives(ack) => HandedOutAckExactly(w, ack);
  }

  ghost predicate AllPossible(w: World, events: seq<Event>)
    decreases |events|
  {
    events != [] ==> Possible(w, events[0]) && AllPossible(Happen(w, events[0]), events[1..])
  }

  ghost function HappenAll(w: World, events: seq<Event>): World
    requires AllPossible(w, events)
    decreases |events|
  {
    if events == [] then w else HappenAll(Happen(w, events[0]), events[1..])
  }

  lemma {:induction false} RunHonest(w: World, events: seq<Event>)
    requires Honest(w) && AllPossible(w, events)
    ensures Honest(HappenAll(w, events))
    decreases |events|
  {
    if events != [] {
      EventHonest(w, events[0]);
      RunHonest(Happen(w, events[0]), events[1..]);
    }
  }

  /**
   From a pairing on: messages, strays and acknowledgements in any order, each
   acknowledgement any time in the generation of its offer, or later at a number a
   does not wait for.  The peers stay linked, whatever the interleaving.
   */
  lemma AcksAnyTime(root: Root, pairA: KeyPair, pairB: KeyPair, events: seq<Event>)
    requires root.Master? && AllPossible(World(Start(root, pairA, pairB), None, {}), events)
    ensures Linked(HappenAll(World(Start(root, pairA, pairB), None, {}), events).sys)
  {
    StartLinked(root, pairA, pairB);
    RunHonest(World(Start(root, pairA, pairB), None, {}), events);
  }
}
