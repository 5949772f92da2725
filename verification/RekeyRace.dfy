/**
 Two-sided rekeys.  Both peers stage an offer in the same generation and each
 authenticates the other's carrier: who keeps what, when the two agree, and how the
 surviving offer carries both into the next generation with crossed chains.
 */
module RekeyRace {
  import opened Symbolic
  import opened RatchetSpec
  import opened Generations
  import RatchetRuns
  import AtMostOnce

  // ----- The tie-break order -----

  lemma {:induction false} LexTrichotomy(a: Bytes, b: Bytes)
    ensures LexLess(a, b) ==> !LexLess(b, a) && a != b
    ensures !LexLess(a, b) && !LexLess(b, a) ==> a == b
    decreases |a|
  {
    if a != [] && b != [] {
      LexTrichotomy(a[1..], b[1..]);
      assert a == [a[0]] + a[1..] && b == [b[0]] + b[1..];
    }
  }

  /** The first position at which two byte strings differ: one ends there, or the bytes are different. */
  predicate FirstDifference(a: Bytes, b: Bytes, i: nat) {
    && i <= |a| && i <= |b| && a[..i] == b[..i]
    && (if i == |a| || i == |b| then |a| != |b| else a[i] != b[i])
  }

  /** At the first difference a ends, or has the smaller byte. */
  predicate SmallerAt(a: Bytes, b: Bytes, i: nat)
    requires FirstDifference(a, b, i)
  {
    i == |a| || (i < |b| && a[i] < b[i])
  }

  /** The order of byte strings is decided at their first difference. */
  lemma {:induction false} LexExactly(a: Bytes, b: Bytes, i: nat)
    requires FirstDifference(a, b, i)
    ensures LexLess(a, b) <==> SmallerAt(a, b, i)
    decreases i
  {
    if i > 0 {
      assert a[..i][0] == b[..i][0];
      assert a[1..][..i - 1] == a[..i][1..] == b[..i][1..] == b[1..][..i - 1];
      LexExactly(a[1..], b[1..], i - 1);
    }
  }

  /**
   The order of public keys: the X25519 halves decide at their first difference, and only
   if they are equal the ML-KEM halves do.
   */
  lemma PkLessExactly(a: PublicKey, b: PublicKey, i: nat)
    ensures FirstDifference(a.x, b.x, i) ==> (PkLess(a, b) <==> SmallerAt(a.x, b.x, i))
    ensures a.x == b.x && FirstDifference(a.m, b.m, i) ==> (PkLess(a, b) <==> SmallerAt(a.m, b.m, i))
    ensures PkLess(a, b) ==> a != b
  {
    LexTrichotomy(a.x, b.x);
    LexTrichotomy(a.m, b.m);
    if FirstDifference(a.x, b.x, i) { LexExactly(a.x, b.x, i); }
    if a.x == b.x && FirstDifference(a.m, b.m, i) { LexExactly(a.m, b.m, i); }
  }

  /** Distinct keys are ordered one way or the other, never both. */
  lemma PkTrichotomy(a: PublicKey, b: PublicKey)
    ensures PkLess(a, b) ==> !PkLess(b, a) && a != b
    ensures !PkLess(a, b) && !PkLess(b, a) ==> a == b
  {
    LexTrichotomy(a.x, b.x);
    LexTrichotomy(a.m, b.m);
  }

  // ----- Processing the other side's carrier -----

  /** s has staged an offer to the peer key pk under its current root. */
  ghost predicate Offering(s: Session, pk: PublicKey, newPair: KeyPair, eph: nat) {
    s.outgoing == Some(MakeOutgoing(s.root, pk, newPair, eph)) && s.incoming.slot.None? && s.incoming.carrierGen.None?
  }

  /** m authenticates at s, on the current chain or from the cache, as a carrier of this offer. */
  ghost predicate Authenticates(s: Session, m: Message, offer: Payload, now: Clock) {
    && m.nonce.gen == s.generation && (s.previous.Some? ==> s.previous.value.gen < s.generation)
    && m.fields == FieldsOf(Some(offer))
    && DecryptRekey(s, m, now).1.Ok? && DecryptRekey(s, m, now).1.value.1 == ProposalDerived
  }

  /** The proposal a session with this root and pair derives from an offer made to it. */
  function Mirror(o: Outgoing): Proposal {
    Proposal(o.root, o.recv, o.send, o.payload.pk)
  }

  /** One side of the race, decided by the two offered keys alone. */
  lemma RaceAtOneSide(s: Session, other: Outgoing, mine: KeyPair, peerPk: PublicKey, myEph: nat, otherEph: nat,
                      otherPair: KeyPair, m: Message, now: Clock)
    requires Offering(s, peerPk, mine, myEph)
    requires other == MakeOutgoing(s.root, s.pair.pk, otherPair, otherEph)
    requires Authenticates(s, m, other.payload, now)
    ensures var s' := DecryptRekey(s, m, now).0;
            && s'.root == s.root && s'.generation == s.generation && s'.pair == s.pair && s'.send == s.send
            && (PkLess(mine.pk, otherPair.pk) ==>
                  s'.outgoing.None? && s'.queue == [] && s'.incoming.slot == Some(Mirror(other)) && s'.ackSeq == Some(m.nonce.num))
            && (!PkLess(mine.pk, otherPair.pk) ==>
                  s'.outgoing == s.outgoing && s'.queue == s.queue && s'.incoming.slot.None? && s'.ackSeq == s.ackSeq)
  {
    var n, offer := m.nonce, other.payload;
    assert BuildAad(m.fields) == Ok(Some(offer));
    var s1 := Stage(s, n, offer, now).0;
    assert s1.incoming.slot == Some(Mirror(other)) && s1 == s.(incoming := s1.incoming);
    assert DecryptRekey(s, m, now) == AfterStaging(s1, n, m.body, Some(offer));
  }

  /** Without a rival in the slot the own offer stands, and nothing is owed. */
  lemma UnrivalledOfferStands(s: Session, num: nat, carries: bool)
    requires s.outgoing.Some? && s.incoming.slot.None?
    ensures var s' := ResolveRace(s, num, carries);
            s'.outgoing == s.outgoing && s'.queue == s.queue && s'.ackSeq == s.ackSeq && s'.incoming.slot.None?
  {}

  /** Exactly one of two offers is alive, its maker waits for the ack, the other side holds its mirror image. */
  ghost predicate Settled(winner: Session, loser: Session, offer: Outgoing) {
    && winner.outgoing == Some(offer) && winner.incoming.slot.None?
    && loser.outgoing.None? && loser.queue == [] && loser.incoming.slot == Some(Mirror(offer))
  }

  /**
   The two sides of a race agree on one surviving offer if and only if the offered
   public keys differ; then only the loser cancels its own offer and queues an
   acknowledgement.  With equal keys both sides keep their own and drop the other's.
   */
  lemma RaceSettledExactly(a: Session, b: Session, pairA: KeyPair, pairB: KeyPair, ephA: nat, ephB: nat,
                           fromA: Message, fromB: Message, nowA: Clock, nowB: Clock)
    requires a.root == b.root && a.generation == b.generation
    requires Offering(a, b.pair.pk, pairA, ephA) && Offering(b, a.pair.pk, pairB, ephB)
    requires Authenticates(a, fromB, b.outgoing.value.payload, nowA)
    requires Authenticates(b, fromA, a.outgoing.value.payload, nowB)
    ensures var a', b' := DecryptRekey(a, fromB, nowA).0, DecryptRekey(b, fromA, nowB).0;
            && (PkLess(pairA.pk, pairB.pk) ==>
                  Settled(b', a', b.outgoing.value) && a'.ackSeq == Some(fromB.nonce.num) && b'.ackSeq == b.ackSeq)
            && (PkLess(pairB.pk, pairA.pk) ==>
                  Settled(a', b', a.outgoing.value) && b'.ackSeq == Some(fromA.nonce.num) && a'.ackSeq == a.ackSeq)
            && (pairA.pk != pairB.pk <==> (a'.outgoing.None? <==> b'.outgoing.Some?))
            && (pairA.pk == pairB.pk ==>
                  a'.outgoing == a.outgoing && b'.outgoing == b.outgoing && a'.incoming.slot.None? && b'.incoming.slot.None?)
  {
    PkTrichotomy(pairA.pk, pairB.pk);
    RaceAtOneSide(a, b.outgoing.value, pairA, b.pair.pk, ephA, ephB, pairB, fromB, nowA);
    RaceAtOneSide(b, a.outgoing.value, pairB, a.pair.pk, ephB, ephA, pairA, fromA, nowB);
  }

  /** b's offered key has the larger byte, or goes on, where the two keys first differ. */
  ghost predicate LargerKey(b: PublicKey, a: PublicKey) {
    || (exists i :: FirstDifference(a.x, b.x, i) && SmallerAt(a.x, b.x, i))
    || (a.x == b.x && exists i :: FirstDifference(a.m, b.m, i) && SmallerAt(a.m, b.m, i))
  }

  lemma {:induction false} DifferSomewhere(a: Bytes, b: Bytes) returns (i: nat)
    requires a != b
    ensures FirstDifference(a, b, i)
    decreases |a|
  {
    if a == [] || b == [] || a[0] != b[0] {
      i := 0;
    } else {
      assert a == [a[0]] + a[1..] && b == [b[0]] + b[1..];
      var j := DifferSomewhere(a[1..], b[1..]);
      i := j + 1;
      assert a[..i] == [a[0]] + a[1..][..j] && b[..i] == [b[0]] + b[1..][..j];
    }
  }

  lemma LargerKeyExactly(a: PublicKey, b: PublicKey)
    ensures LargerKey(b, a) <==> PkLess(a, b)
  {
    if a.x != b.x {
      var i := DifferSomewhere(a.x, b.x);
      PkLessExactly(a, b, i);
    } else if a.m != b.m {
      var i := DifferSomewhere(a.m, b.m);
      PkLessExactly(a, b, i);
    }
    forall i | FirstDifference(a.x, b.x, i) || (a.x == b.x && FirstDifference(a.m, b.m, i)) {
      PkLessExactly(a, b, i);
    }
    PkLessExactly(a, b, 0);
  }

  /** Of two crossing offers the one with the larger key survives, on both sides. */
  lemma LargerKeyWins(a: Session, b: Session, pairA: KeyPair, pairB: KeyPair, ephA: nat, ephB: nat,
                      fromA: Message, fromB: Message, nowA: Clock, nowB: Clock)
    requires a.root == b.root && a.generation == b.generation && LargerKey(pairB.pk, pairA.pk)
    requires Offering(a, b.pair.pk, pairA, ephA) && Offering(b, a.pair.pk, pairB, ephB)
    requires Authenticates(a, fromB, b.outgoing.value.payload, nowA)
    requires Authenticates(b, fromA, a.outgoing.value.payload, nowB)
    ensures var a', b' := DecryptRekey(a, fromB, nowA).0, DecryptRekey(b, fromA, nowB).0;
            Settled(b', a', b.outgoing.value) && a'.ackSeq == Some(fromB.nonce.num) && b'.ackSeq == b.ackSeq
  {
    LargerKeyExactly(pairA.pk, pairB.pk);
    RaceSettledExactly(a, b, pairA, pairB, ephA, ephB, fromA, fromB, nowA, nowB);
  }

  // ----- From the settled race into the next generation -----

  /** The first message of the winner's new chain. */
  function FirstOfNewChain(w: Session, num: nat, text: Plaintext): Message {
    var n := Nonce(w.generation, num);
    Message(n, Sealed(MsgKey(Advance(w.send.key, num)), n, None, text), NO_FIELDS)
  }

  /** Same root and generation, each side's sending chain is the other's receiving chain. */
  ghost predicate Crossed(w: Session, l: Session, num: nat) {
    && w.root == l.root && w.generation == l.generation
    && l.recv == Chain(Advance(w.send.key, num + 1), num + 1)
    && l.send == Chain(w.recv.key, 0) && w.recv.count == 0 && w.send.count == 0
    && l.peer == Some(w.pair.pk)
  }

  /**
   After the loser's acknowledgement reaches the winner, any first message of the
   new generation up to max_skip brings the two sides to crossed chains.
   */
  lemma SettledRaceHandsOff(winner: Session, loser: Session, offer: Outgoing, num: nat, text: Plaintext)
    requires Settled(winner, loser, offer) && winner.generation == loser.generation < GEN_MAX
    requires offer.pair.pk == offer.payload.pk && num <= loser.maxSkip
    requires loser.previous.Some? ==> loser.previous.value.gen < loser.generation
    requires forall n :: n in loser.skip || n in loser.seen ==> n.gen <= loser.generation
    requires Seed(loser.recv.key) != Seed(offer.send) && !offer.send.Next?
    ensures var w := CommitOutgoing(winner);
            var (l, r) := Decrypt(loser, Nonce(w.generation, num), FirstOfNewChain(w, num, text).body);
            r == Ok(text) && Crossed(w, l, num)
  {
    var w := CommitOutgoing(winner);
    var n := Nonce(w.generation, num);
    var body := FirstOfNewChain(w, num, text).body;
    SeedPosAdvance(offer.send, num);
    SeedPosAdvance(loser.recv.key, if num > loser.recv.count then num - loser.recv.count else 0);
    assert FromChain(loser, n, body, None).1.Err?;
    assert PendingText(loser, n, body, None) == Some(text);
    assert n !in loser.skip && n !in loser.seen;
  }

  /** What every run of a session keeps: the key discipline and the order of generations. */
  ghost predicate Reachable(s: Session, used: set<MsgKey>, adopted: set<ChainKey>) {
    AtMostOnce.Inv(s, used, adopted) && GenerationsOk(s)
  }

  /** Every run of a fresh session, whatever the operations, ends in such a state. */
  lemma {:induction false} RunReachable(s: Session, used: set<MsgKey>, adopted: set<ChainKey>, ops: seq<RatchetRuns.Op>)
    returns (used': set<MsgKey>, adopted': set<ChainKey>)
    requires Reachable(s, used, adopted)
    ensures Reachable(RatchetRuns.RunFrom(s, ops), used', adopted')
    decreases |ops|
  {
    if ops == [] {
      used', adopted' := used, adopted;
    } else {
      OpKeepsGenerations(s, ops[0]);
      used', adopted' := AtMostOnce.OpKeeps(s, used, adopted, ops[0]);
      used', adopted' := RunReachable(RatchetRuns.Apply(s, ops[0]), used', adopted', ops[1..]);
    }
  }

  /** Processing the other side's carrier leaves the loser as the handoff needs it. */
  lemma LoserReady(s: Session, used: set<MsgKey>, adopted: set<ChainKey>, m: Message, now: Clock, offer: Outgoing)
    requires Reachable(s, used, adopted) && s.generation < GEN_MAX
    requires var s' := DecryptRekey(s, m, now).0; s'.root == s.root && s'.generation == s.generation
    requires offer.send.RekeySend? && offer.send.root == s.root
    ensures var s' := DecryptRekey(s, m, now).0;
            && (s'.previous.Some? ==> s'.previous.value.gen < s'.generation)
            && (forall n :: n in s'.skip || n in s'.seen ==> n.gen <= s'.generation)
            && Seed(s'.recv.key) != Seed(offer.send)
  {
    OpKeepsGenerations(s, RatchetRuns.ReceiveRekey(m, now));
    var used', adopted' := AtMostOnce.OpKeeps(s, used, adopted, RatchetRuns.ReceiveRekey(m, now));
  }

  /** The two sides after a race: the winner, which waits for the ack, and the loser. */
  function Sides(a: Session, b: Session, pairA: KeyPair, pairB: KeyPair): (Session, Session) {
    if PkLess(pairA.pk, pairB.pk) then (b, a) else (a, b)
  }

  /**
   A whole race, between two sessions in any state their own runs can bring them to:
   both stage offers with different keys, each processes the other's carrier, the
   loser's acknowledgement reaches the winner, and any first message of the new
   generation up to max_skip leaves the two sides with the same root and crossed chains.
   */
  lemma RaceEndsCrossed(a: Session, b: Session, usedA: set<MsgKey>, adoptedA: set<ChainKey>, usedB: set<MsgKey>, adoptedB: set<ChainKey>,
                        pairA: KeyPair, pairB: KeyPair, ephA: nat, ephB: nat,
                        fromA: Message, fromB: Message, nowA: Clock, nowB: Clock, num: nat, text: Plaintext)
    requires Reachable(a, usedA, adoptedA) && Reachable(b, usedB, adoptedB)
    requires a.root == b.root && a.generation == b.generation < GEN_MAX && pairA.pk != pairB.pk
    requires Offering(a, b.pair.pk, pairA, ephA) && Offering(b, a.pair.pk, pairB, ephB)
    requires Authenticates(a, fromB, b.outgoing.value.payload, nowA)
    requires Authenticates(b, fromA, a.outgoing.value.payload, nowB)
    ensures var (winner, loser) := Sides(DecryptRekey(a, fromB, nowA).0, DecryptRekey(b, fromA, nowB).0, pairA, pairB);
            && winner.outgoing.Some?
            && (num <= loser.maxSkip ==>
                  var w := CommitOutgoing(winner);
                  var (l, r) := Decrypt(loser, Nonce(w.generation, num), FirstOfNewChain(w, num, text).body);
                  r == Ok(text) && Crossed(w, l, num))
  {
    var a', b' := DecryptRekey(a, fromB, nowA).0, DecryptRekey(b, fromA, nowB).0;
    PkTrichotomy(pairA.pk, pairB.pk);
    RaceSettledExactly(a, b, pairA, pairB, ephA, ephB, fromA, fromB, nowA, nowB);
    RaceAtOneSide(a, b.outgoing.value, pairA, b.pair.pk, ephA, ephB, pairB, fromB, nowA);
    RaceAtOneSide(b, a.outgoing.value, pairB, a.pair.pk, ephB, ephA, pairA, fromA, nowB);
    var (winner, loser) := Sides(a', b', pairA, pairB);
    if PkLess(pairA.pk, pairB.pk) {
      LoserReady(a, usedA, adoptedA, fromB, nowA, b.outgoing.value);
    } else {
      LoserReady(b, usedB, adoptedB, fromA, nowB, a.outgoing.value);
    }
    if num <= loser.maxSkip { SettledRaceHandsOff(winner, loser, winner.outgoing.value, num, text); }
  }

  /** Both sides of a pairing, each after any run of its own. */
  datatype Pairing = Pairing(root: Root, keysA: KeyPair, keysB: KeyPair, runA: seq<RatchetRuns.Op>, runB: seq<RatchetRuns.Op>)

  ghost function SideA(p: Pairing): Session {
    RatchetRuns.RunFrom(Fresh(p.root, true, p.keysA, Some(p.keysB.pk)), p.runA)
  }

  ghost function SideB(p: Pairing): Session {
    RatchetRuns.RunFrom(Fresh(p.root, false, p.keysB, Some(p.keysA.pk)), p.runB)
  }

  /** So from a pairing on: whenever two runs meet in a race, it ends with crossed chains. */
  lemma RacesInRunsEndCrossed(p: Pairing, pairA: KeyPair, pairB: KeyPair, ephA: nat, ephB: nat,
                              fromA: Message, fromB: Message, nowA: Clock, nowB: Clock, num: nat, text: Plaintext)
    requires p.root.Master? && SideA(p).root == SideB(p).root && pairA.pk != pairB.pk
    requires SideA(p).generation == SideB(p).generation < GEN_MAX
    requires Offering(SideA(p), SideB(p).pair.pk, pairA, ephA) && Offering(SideB(p), SideA(p).pair.pk, pairB, ephB)
    requires Authenticates(SideA(p), fromB, SideB(p).outgoing.value.payload, nowA)
    requires Authenticates(SideB(p), fromA, SideA(p).outgoing.value.payload, nowB)
    ensures var (winner, loser) := Sides(DecryptRekey(SideA(p), fromB, nowA).0, DecryptRekey(SideB(p), fromA, nowB).0, pairA, pairB);
            && winner.outgoing.Some?
            && (num <= loser.maxSkip ==>
                  var w := CommitOutgoing(winner);
                  var (l, r) := Decrypt(loser, Nonce(w.generation, num), FirstOfNewChain(w, num, text).body);
                  r == Ok(text) && Crossed(w, l, num))
  {
    var a, b := Fresh(p.root, true, p.keysA, Some(p.keysB.pk)), Fresh(p.root, false, p.keysB, Some(p.keysA.pk));
    AtMostOnce.FreshInv(p.root, true, p.keysA, Some(p.keysB.pk));
    AtMostOnce.FreshInv(p.root, false, p.keysB, Some(p.keysA.pk));
    var usedA, adoptedA := RunReachable(a, {}, {a.recv.key}, p.runA);
    var usedB, adoptedB := RunReachable(b, {}, {b.recv.key}, p.runB);
    RaceEndsCrossed(SideA(p), SideB(p), usedA, adoptedA, usedB, adoptedB,
                    pairA, pairB, ephA, ephB, fromA, fromB, nowA, nowB, num, text);
  }
}
