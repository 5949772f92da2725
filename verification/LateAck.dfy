/**
 A late acknowledgement of an earlier generation commits the wrong offer.  The run:
 a sends a carrier with number 100 and re-sends the offer with number 101; b stages
 it from the first and acknowledges 100; the acknowledgement of 101 moves a on; in
 the new generation the next offer again rides on number 100, and now the delayed
 acknowledgement of 100 arrives.
 */
module LateAck {
  import opened Symbolic
  import opened RatchetSpec
  import opened Receiving
  import opened ConfirmQueue
  import opened NoDesync
  import opened Handoff

  // ----- Putting runs together -----

  lemma {:induction false} RunAppend(sys: System, first: seq<Step>, second: seq<Step>)
    requires AllEnabled(sys, first) && AllEnabled(ExecuteAll(sys, first), second)
    ensures AllEnabled(sys, first + second) && ExecuteAll(sys, first + second) == ExecuteAll(ExecuteAll(sys, first), second)
    decreases |first|
  {
    if first == [] {
      assert first + second == second;
    } else {
      assert (first + second)[1..] == first[1..] + second && (first + second)[0] == first[0];
      RunAppend(Execute(sys, first[0]), first[1..], second);
    }
  }

  function Repeat(step: Step, n: nat): seq<Step> {
    if n == 0 then [] else [step] + Repeat(step, n - 1)
  }

  /** a is free to send plain messages up to its next boundary. */
  ghost predicate Idle(a: Session) {
    a.queue == [] && a.outgoing.None? && a.incoming.slot.None? && a.interval == 100 && a.generation < GEN_MAX
  }

  /** n plain sends before the boundary move the sending chain and nothing else. */
  lemma {:induction false} PlainSends(sys: System, text: Plaintext, env: Env, n: nat)
    requires Idle(sys.a) && sys.a.send.count + n <= 100
    ensures AllEnabled(sys, Repeat(SendA(text, env), n))
    ensures var sys' := ExecuteAll(sys, Repeat(SendA(text, env), n));
            && sys'.a == sys.a.(send := Chain(Advance(sys.a.send.key, n), sys.a.send.count + n))
            && sys' == sys.(a := sys'.a, log := sys'.log) && |sys'.log| == |sys.log| + n
    decreases n
  {
    if n > 0 {
      PlainSend(sys, text, env);
      var sys1 := Execute(sys, SendA(text, env));
      PlainSends(sys1, text, env, n - 1);
      AdvanceAdd(sys.a.send.key, 1, n - 1);
      assert Repeat(SendA(text, env), n)[1..] == Repeat(SendA(text, env), n - 1);
    }
  }

  lemma PlainSend(sys: System, text: Plaintext, env: Env)
    requires Idle(sys.a) && sys.a.send.count < 100
    ensures Enabled(sys, SendA(text, env))
    ensures var sys' := Execute(sys, SendA(text, env));
            && sys'.a == sys.a.(send := Chain(Next(sys.a.send.key), sys.a.send.count + 1))
            && sys' == sys.(a := sys'.a, log := sys'.log) && |sys'.log| == |sys.log| + 1
  {
    assert !Boundary(sys.a, sys.a.send.count);
  }

  /** At the boundary an offer is staged and rides on number 100. */
  lemma OfferSend(sys: System, text: Plaintext, env: Env)
    requires Idle(sys.a) && sys.a.send.count == 100 && sys.a.peer.Some? && env.eph.Some?
    ensures Enabled(sys, SendA(text, env))
    ensures var sys' := Execute(sys, SendA(text, env));
            && sys'.a.generation == sys.a.generation && sys'.a.outgoing.Some? && sys'.a.send.count == 101
            && sys'.a.queue == [Carrier(100, env.now, env.now, sys'.a.outgoing.value.payload)]
            && sys'.b == sys.b && |sys'.log| == |sys.log| + 1
            && sys'.log[|sys.log|].nonce == Nonce(sys.a.generation, 100) && sys'.log[|sys.log|].body.Sealed?
            && sys'.log[|sys.log|].body.aad.Some?
            && sys'.a == sys.a.(send := sys'.a.send, outgoing := sys'.a.outgoing, queue := sys'.a.queue)
  {
    assert Boundary(sys.a, 100);
  }

  /** Fifteen seconds later the offer is re-sent on the next number. */
  lemma ResendSend(sys: System, text: Plaintext, env: Env)
    requires |sys.a.queue| == 1 && sys.a.queue[0].attached == Clock(0, 0) && env.now == Clock(15, 15)
    requires sys.a.generation < GEN_MAX && sys.a.outgoing.Some?
    ensures Enabled(sys, SendA(text, env))
    ensures var sys', num := Execute(sys, SendA(text, env)), sys.a.send.count;
            && |sys'.a.queue| == 1 && sys'.a.queue[0].at == num
            && sys' == sys.(a := sys'.a, log := sys'.log) && |sys'.log| == |sys.log| + 1
            && sys'.log[..|sys.log|] == sys.log
            && sys'.log[|sys.log|].nonce == Nonce(sys.a.generation, num) && sys'.log[|sys.log|].body.Sealed?
            && sys'.log[|sys.log|].body.aad.Some?
            && sys'.a == sys.a.(send := sys'.a.send, queue := sys'.a.queue) && sys'.a.send.count == num + 1
  {
    QueueOfOne(sys.a.queue, env.now);
    assert RetryDue(sys.a.queue[0], env.now);
  }

  /** b takes a carrier of the current generation from the log: it stages the offer and acknowledges the number. */
  lemma CarrierDelivered(sys: System, i: nat, now: Clock)
    requires Linked(sys) && i < |sys.log| && sys.log[i].body.aad.Some? && sys.b.generation == sys.log[i].nonce.gen < GEN_MAX
    requires sys.b.recv.count <= sys.log[i].nonce.num <= sys.b.recv.count + sys.b.maxSkip
    ensures Enabled(sys, DeliverToB(i, now))
    ensures var sys' := Execute(sys, DeliverToB(i, now));
            && sys' == sys.(b := sys'.b) && Linked(sys')
            && sys'.b.ackSeq == Some(sys.log[i].nonce.num) && sys'.b.incoming.slot.Some?
            && sys'.b.generation == sys.b.generation && sys'.b.maxSkip == sys.b.maxSkip
            && sys'.b.recv.count == sys.log[i].nonce.num + 1
  {
    assert MessageOk(sys, sys.log[i]);
    DeliverCurrent(sys, sys.log[i], now);
  }

  /** The acknowledgement moves a into the next generation, free to send. */
  lemma AckMoves(sys: System)
    requires Linked(sys) && Enabled(sys, AckReachesA) && sys.a.interval == 100 && sys.a.generation < GEN_MAX - 1
    ensures var sys' := Execute(sys, AckReachesA);
            && Linked(sys') && Idle(sys'.a) && sys'.a.generation == sys.a.generation + 1
            && sys'.a.send.count == 0 && sys'.b == sys.b && sys'.a.peer.Some?
  {
    AckKeepsLink(sys);
    AcknowledgedCommits(sys);
  }

  // ----- The run -----

  /** A carrier and its re-send: numbers 100 and 101 of the first generation. */
  lemma FirstOffer(sys: System, text: Plaintext, offer: Env, again: Env) returns (steps: seq<Step>)
    requires Linked(sys) && Idle(sys.a) && sys.a.send.count == 0 && sys.a.peer.Some? && sys.log == []
    requires offer.now == Clock(0, 0) && offer.eph.Some? && again.now == Clock(15, 15)
    ensures AllEnabled(sys, steps)
    ensures var sys' := ExecuteAll(sys, steps);
            && Linked(sys') && sys'.b == sys.b && sys'.a.generation == sys.a.generation && sys'.a.interval == 100
            && sys'.a.outgoing.Some? && |sys'.a.queue| == 1 && sys'.a.queue[0].at == 101 && |sys'.log| == 102
            && sys'.log[100].nonce == Nonce(sys.a.generation, 100) && sys'.log[101].nonce == Nonce(sys.a.generation, 101)
            && sys'.log[100].body.Sealed? && sys'.log[100].body.aad.Some?
            && sys'.log[101].body.Sealed? && sys'.log[101].body.aad.Some?
  {
    var plain := Repeat(SendA(text, again), 100);
    PlainSends(sys, text, again, 100);
    var sys1 := ExecuteAll(sys, plain);
    var two := [SendA(text, offer), SendA(text, again)];
    OfferTwice(sys1, text, offer, again);
    RunAppend(sys, plain, two);
    steps := plain + two;
    RunKeepsLink(sys, steps);
  }

  lemma OfferTwice(sys: System, text: Plaintext, offer: Env, again: Env)
    requires Idle(sys.a) && sys.a.send.count == 100 && sys.a.peer.Some? && |sys.log| == 100
    requires offer.now == Clock(0, 0) && offer.eph.Some? && again.now == Clock(15, 15)
    ensures AllEnabled(sys, [SendA(text, offer), SendA(text, again)])
    ensures var sys' := ExecuteAll(sys, [SendA(text, offer), SendA(text, again)]);
            && sys'.b == sys.b && sys'.a.generation == sys.a.generation && sys'.a.interval == 100
            && sys'.a.outgoing.Some? && |sys'.a.queue| == 1 && sys'.a.queue[0].at == 101 && |sys'.log| == 102
            && sys'.log[100].nonce == Nonce(sys.a.generation, 100) && sys'.log[101].nonce == Nonce(sys.a.generation, 101)
            && sys'.log[100].body.Sealed? && sys'.log[100].body.aad.Some?
            && sys'.log[101].body.Sealed? && sys'.log[101].body.aad.Some?
  {
    var steps := [SendA(text, offer), SendA(text, again)];
    assert steps[1..] == [SendA(text, again)] && steps[1..][1..] == [];
    OfferSend(sys, text, offer);
    var sys1 := Execute(sys, SendA(text, offer));
    ResendSend(sys1, text, again);
    var sys2 := Execute(sys1, SendA(text, again));
    assert ExecuteAll(sys1, steps[1..]) == sys2;
    assert sys2.log[100] == sys2.log[..101][100] == sys1.log[100];
  }

  /** The acknowledgement of 101 reaches a, which goes on to its next offer, again on number 100. */
  lemma SecondOffer(sys: System, text: Plaintext, plain: Env, offer: Env) returns (steps: seq<Step>)
    requires Linked(sys) && sys.a.outgoing.Some? && |sys.a.queue| == 1 && sys.a.interval == 100
    requires sys.b.ackSeq == Some(101) && sys.b.incoming.slot.Some? && sys.b.generation == sys.a.generation < GEN_MAX - 1
    requires offer.eph.Some?
    ensures AllEnabled(sys, steps)
    ensures var sys' := ExecuteAll(sys, steps);
            && Linked(sys') && sys'.b == sys.b && sys'.a.generation == sys.a.generation + 1
            && sys'.a.outgoing.Some? && |sys'.a.queue| == 1 && sys'.a.queue[0].at == 100
  {
    var moved := UpToBoundary(sys, text, plain);
    var sys1 := ExecuteAll(sys, moved);
    OfferSend(sys1, text, offer);
    OneStep(sys1, SendA(text, offer));
    RunAppend(sys, moved, [SendA(text, offer)]);
    steps := moved + [SendA(text, offer)];
    RunKeepsLink(sys, steps);
  }

  lemma OneStep(sys: System, step: Step)
    requires Enabled(sys, step)
    ensures AllEnabled(sys, [step]) && ExecuteAll(sys, [step]) == Execute(sys, step)
  {
    assert [step][1..] == [];
  }

  lemma UpToBoundary(sys: System, text: Plaintext, plain: Env) returns (steps: seq<Step>)
    requires Linked(sys) && Enabled(sys, AckReachesA) && sys.a.interval == 100 && sys.a.generation < GEN_MAX - 1
    ensures AllEnabled(sys, steps)
    ensures var sys' := ExecuteAll(sys, steps);
            Idle(sys'.a) && sys'.a.generation == sys.a.generation + 1 && sys'.a.send.count == 100 && sys'.b == sys.b && sys'.a.peer.Some?
  {
    AckMoves(sys);
    OneStep(sys, AckReachesA);
    PlainSends(Execute(sys, AckReachesA), text, plain, 100);
    RunAppend(sys, [AckReachesA], Repeat(SendA(text, plain), 100));
    steps := [AckReachesA] + Repeat(SendA(text, plain), 100);
  }

  /**
   The acknowledgement of number 100 that b issues in the first generation, when it
   reaches a only in the second, commits a's second offer, which b has never seen; b
   then refuses everything a sends on its new chain.
   */
  lemma LateAckCommits(root: Root, pairA: KeyPair, pairB: KeyPair, text: Plaintext, first: Env, again: Env, second: Env, now: Clock)
    returns (upTo100: seq<Step>, onward: seq<Step>)
    requires root.Master? && first.now == Clock(0, 0) && first.eph.Some? && again.now == Clock(15, 15) && second.eph.Some?
    ensures var start := Start(root, pairA, pairB);
            && AllEnabled(start, upTo100)
            && var mid := ExecuteAll(start, upTo100);
               && mid.a.generation == 0 && mid.b.ackSeq == Some(100)
               && AllEnabled(mid, onward)
               && var end := ExecuteAll(mid, onward);
                  && Linked(end) && end.a.outgoing.Some? && !Ready(end) && end.a.generation == 1 && end.b.generation == 0
                  && ProcessAck(end.a, 100).1 && ProcessAck(end.a, 100).0.generation == 2
                  && end.a.queue != [] && Acknowledged(end).a == ProcessAck(end.a, 100).0
                  && !Linked(Acknowledged(end)) && NewChainRefused(end)
  {
    var start := Start(root, pairA, pairB);
    StartLinked(root, pairA, pairB);
    upTo100 := FirstAck(start, text, first, again, now);
    var mid := ExecuteAll(start, upTo100);
    onward := Onward(mid, text, again, second, now);
    LateAckMatches(ExecuteAll(mid, onward));
  }

  /** Whatever a sends on its new chain, b refuses it all. */
  ghost predicate NewChainRefused(sys: System)
    requires HistoryOk(sys) && sys.a.generation in sys.offers
  {
    forall msgs: seq<Late> :: (forall i :: 0 <= i < |msgs| ==> OfNewChain(sys, msgs[i].msg)) ==> AllRefused(sys.b, msgs)
  }

  lemma LateAckMatches(sys: System)
    requires Linked(sys) && sys.a.outgoing.Some? && |sys.a.queue| == 1 && sys.a.queue[0].at == 100 && !Ready(sys)
    ensures ProcessAck(sys.a, 100).1 && ProcessAck(sys.a, 100).0.generation == sys.a.generation + 1
    ensures Acknowledged(sys).a == ProcessAck(sys.a, 100).0 && !Linked(Acknowledged(sys)) && NewChainRefused(sys)
  {
    AcknowledgedCommits(sys);
    assert sys.a.queue[0].at == 100;
    forall msgs: seq<Late> | forall i :: 0 <= i < |msgs| ==> OfNewChain(sys, msgs[i].msg) ensures AllRefused(sys.b, msgs) {
      UnreadyRefusesAll(sys, sys.b, msgs);
    }
  }

  lemma FirstAck(start: System, text: Plaintext, first: Env, again: Env, now: Clock) returns (steps: seq<Step>)
    requires Linked(start) && Idle(start.a) && start.a.send.count == 0 && start.a.peer.Some? && start.log == []
    requires start.a.generation == 0 == start.b.generation && start.b.recv.count == 0 && start.b.maxSkip == 100
    requires first.now == Clock(0, 0) && first.eph.Some? && again.now == Clock(15, 15)
    ensures AllEnabled(start, steps)
    ensures var mid := ExecuteAll(start, steps);
            && Linked(mid) && mid.a.outgoing.Some? && |mid.a.queue| == 1 && mid.a.interval == 100 && mid.a.generation == 0
            && mid.b.generation == 0 && mid.b.recv.count == 101 && mid.b.maxSkip == 100 && mid.b.ackSeq == Some(100)
            && |mid.log| == 102 && mid.log[101].nonce == Nonce(0, 101) && mid.log[101].body.Sealed? && mid.log[101].body.aad.Some?
  {
    var offered := FirstOffer(start, text, first, again);
    var sys := ExecuteAll(start, offered);
    CarrierDelivered(sys, 100, now);
    OneStep(sys, DeliverToB(100, now));
    RunAppend(start, offered, [DeliverToB(100, now)]);
    steps := offered + [DeliverToB(100, now)];
  }

  lemma Onward(mid: System, text: Plaintext, again: Env, second: Env, now: Clock) returns (onward: seq<Step>)
    requires Linked(mid) && mid.a.outgoing.Some? && |mid.a.queue| == 1 && mid.a.interval == 100 && mid.a.generation == 0
    requires mid.b.generation == 0 && mid.b.recv.count == 101 && mid.b.maxSkip == 100 && second.eph.Some?
    requires |mid.log| == 102 && mid.log[101].nonce == Nonce(0, 101) && mid.log[101].body.Sealed? && mid.log[101].body.aad.Some?
    ensures AllEnabled(mid, onward)
    ensures var end := ExecuteAll(mid, onward);
            && Linked(end) && end.a.outgoing.Some? && end.a.generation == 1 && end.b.generation == 0
            && |end.a.queue| == 1 && end.a.queue[0].at == 100
  {
    CarrierDelivered(mid, 101, now);
    OneStep(mid, DeliverToB(101, now));
    var rest := SecondOffer(Execute(mid, DeliverToB(101, now)), text, again, second);
    RunAppend(mid, [DeliverToB(101, now)], rest);
    onward := [DeliverToB(101, now)] + rest;
  }
}
