/**
 The replay window.  Every delivery is recorded, the sliding window keeps the record for
 the last 2 * max_skip positions, and the cap on the whole set never reaches the current
 generation; so the re-arrival of a delivered number is refused as a replay, whatever
 body it carries.
 */
module ReplayWindow {
  import opened Symbolic
  import opened RatchetSpec
  import opened Receiving
  import opened SkipCache
  import opened ChainRefinement

  // ----- One record -----

  /** A recorded number is in the set if and only if it and everything of its generation or later fit under the cap. */
  lemma RecordedExactly(seen: set<Nonce>, n: Nonce)
    ensures n in RecordDelivered(seen, n) <==> |FromGeneration(seen + {n}, n.gen)| <= SEEN_SET_MAX
    ensures forall k :: k in RecordDelivered(seen, n) ==> k in seen || k == n
  {}

  lemma RecordedUnderCap(seen: set<Nonce>, n: Nonce)
    requires |seen| < SEEN_SET_MAX
    ensures RecordDelivered(seen, n) == seen + {n}
  {
    forall k | k in seen + {n} ensures |FromGeneration(seen + {n}, k.gen)| <= SEEN_SET_MAX {
      CardLe(FromGeneration(seen + {n}, k.gen), seen + {n});
    }
  }

  /** The cap holds after every record. */
  lemma RecordsBounded(seen: set<Nonce>, n: Nonce)
    ensures |RecordDelivered(seen, n)| <= 4096
  {
    var kept := RecordDelivered(seen, n);
    if kept != {} {
      var oldest := OldestOf(kept);
      CardLe(kept, FromGeneration(seen + {n}, oldest.gen));
    }
  }

  /** The number a delivery is recorded under: that of the chain that opened the message. */
  ghost function RecordOf(s: Session, m: Message, now: Clock): Nonce {
    if m.nonce in s.skip || (s.previous.Some? && m.nonce.gen == s.previous.value.gen) then m.nonce
    else Nonce(Dispatch(s, m, now).0.generation, m.nonce.num)
  }

  /** Whatever the path, a delivered message is recorded. */
  lemma DeliveryRecorded(s: Session, m: Message, now: Clock)
    requires Dispatch(s, m, now).1.Ok? && |s.seen| < SEEN_SET_MAX && s.maxSkip > 0
    ensures RecordOf(s, m, now) in Dispatch(s, m, now).0.seen
  {
    if BuildAad(m.fields).Err? {
      PartialFieldsRefused(s, m, now);
    } else {
      var aad := BuildAad(m.fields).value;
      DispatchUnified(s, m, aad, now);
      StagedSlotOnly(s, m.nonce, aad, now);
      RecordedUnderCap(s.seen, m.nonce);
      RecordedUnderCap(s.seen, Nonce(s.generation, m.nonce.num));
      if !(s.previous.Some? && m.nonce.gen == s.previous.value.gen) {
        OpeningRecorded(Staged(s, m.nonce, aad, now).0, m.nonce, m.body, aad);
      }
    }
  }

  lemma OpeningRecorded(s: Session, n: Nonce, body: Cipher, aad: Option<Payload>)
    requires AfterStaging(s, n, body, aad).1.Ok? && |s.seen| < SEEN_SET_MAX && s.maxSkip > 0
    ensures var s' := AfterStaging(s, n, body, aad).0;
            (if n in s.skip then n else Nonce(s'.generation, n.num)) in s'.seen
  {
    if n in s.skip {
      RecordedUnderCap(s.seen, n);
      RaceRecords(FromCache(s, n, body, aad).0, n.num, aad.Some?);
    } else if FromChain(s, n, body, aad).1.Ok? {
      ChainRecorded(s, n, body, aad);
      RaceRecords(FromChain(s, n, body, aad).0, n.num, aad.Some?);
    } else {
      RecordedUnderCap({}, Nonce(SaturatingInc(s.generation), n.num));
    }
  }

  lemma ChainRecorded(s: Session, n: Nonce, body: Cipher, aad: Option<Payload>)
    requires FromChain(s, n, body, aad).1.Ok? && |s.seen| < SEEN_SET_MAX && s.maxSkip > 0
    ensures Nonce(s.generation, n.num) in FromChain(s, n, body, aad).0.seen && FromChain(s, n, body, aad).0.generation == s.generation
  {
    RecordedUnderCap(s.seen, Nonce(s.generation, n.num));
  }

  // ----- The current generation is never capped -----

  function SeenOf(seen: set<Nonce>, gen: nat): set<Nonce> {
    set n | n in seen && n.gen == gen
  }

  function KeysOf(skip: SkipKeys, gen: nat): set<Nonce> {
    set n | n in skip && n.gen == gen
  }

  /** The numbers of the current generation, recorded or cached, are few. */
  ghost predicate Room(s: Session) {
    && 0 < 4 * s.maxSkip < SEEN_SET_MAX
    && (forall n :: n in s.seen ==> n.gen <= s.generation)
    && |SeenOf(s.seen, s.generation)| + |KeysOf(s.skip, s.generation)| <= 4 * s.maxSkip
  }

  /** Every delivered number of the last 2 * max_skip positions is recorded. */
  ghost predicate Remembered(w: Stream, s: Session, delivered: set<nat>) {
    forall i :: i in delivered && i + 2 * s.maxSkip >= s.recv.count ==> Nonce(w.gen, i) in s.seen
  }

  ghost predicate Recalls(w: Stream, s: Session, delivered: set<nat>) {
    Aligned(w, s, delivered) && Room(s) && Remembered(w, s, delivered)
  }

  /** Recording a number of the current generation or an earlier one drops nothing of the current generation. */
  lemma RecordKeepsCurrent(seen: set<Nonce>, n: Nonce, gen: nat)
    requires n.gen <= gen && (forall k :: k in seen ==> k.gen <= gen) && |SeenOf(seen, gen)| < SEEN_SET_MAX
    ensures SeenOf(RecordDelivered(seen, n), gen) == SeenOf(seen, gen) + (if n.gen == gen then {n} else {})
  {
    assert FromGeneration(seen + {n}, gen) == SeenOf(seen + {n}, gen);
    assert SeenOf(seen + {n}, gen) == SeenOf(seen, gen) + (if n.gen == gen then {n} else {});
  }

  // ----- Each arrival -----

  lemma FreshRecalls(w: Stream, root: Root, isInitiator: bool, pair: KeyPair, peer: Option<PublicKey>)
    requires w.gen == 0 && w.seed == if isInitiator then InitiatorRecv(root) else InitiatorSend(root)
    ensures Recalls(w, Fresh(root, isInitiator, pair, peer), {})
  {
    FreshAligned(w, root, isInitiator, pair, peer);
    var s := Fresh(root, isInitiator, pair, peer);
    assert SeenOf(s.seen, 0) == {} && KeysOf(s.skip, 0) == {};
  }

  /** Entering a generation starts with the message that brought the receiver in, recorded. */
  lemma CommitRecalls(w: Stream, s: Session, num: nat)
    requires BeforeCommit(s) && 0 < 4 * s.maxSkip < SEEN_SET_MAX && w.gen == s.generation + 1
    ensures s.outgoing.Some? && w.seed == s.outgoing.value.recv ==> Recalls(w, CommitOutgoing(s), {})
    ensures s.incoming.slot.Some? && w.seed == s.incoming.slot.value.recv && num <= s.maxSkip ==> Recalls(w, CommitAt(s, num), {num})
  {
    if s.outgoing.Some? && w.seed == s.outgoing.value.recv {
      OwnCommitAligned(w, s);
      var s' := CommitOutgoing(s);
      assert SeenOf(s'.seen, w.gen) == {} && KeysOf(s'.skip, w.gen) == {};
    }
    if s.incoming.slot.Some? && w.seed == s.incoming.slot.value.recv && num <= s.maxSkip {
      PeerCommitAligned(w, s, num);
      PeerCommitRoom(w, s, num);
    }
  }

  lemma PeerCommitRoom(w: Stream, s: Session, num: nat)
    requires s.incoming.slot.Some? && s.generation < GEN_MAX && 0 < 4 * s.maxSkip < SEEN_SET_MAX && w.gen == s.generation + 1
    ensures Room(CommitAt(s, num)) && Nonce(w.gen, num) in CommitAt(s, num).seen
  {
    var s', n := CommitAt(s, num), Nonce(w.gen, num);
    CommitShape(s, num);
    RecordedUnderCap({}, n);
    assert s'.seen == {n};
    CardLe(SeenOf(s'.seen, w.gen), {n});
    PruneBounded(s.skip + SkipRange(s.incoming.slot.value.recv, 0, num, w.gen), w.gen, 2 * s.maxSkip);
    CardLe(KeysOf(s'.skip, w.gen), s'.skip.Keys);
  }

  /** Only the records, the cache and the counter matter. */
  lemma SameRecords(w: Stream, s: Session, s': Session, delivered: set<nat>)
    requires Recalls(w, s, delivered) && Aligned(w, s', delivered)
    requires s'.seen == s.seen && s'.skip == s.skip && s'.recv == s.recv && s'.maxSkip == s.maxSkip
    ensures Recalls(w, s', delivered)
  {}

  lemma CachedRoom(w: Stream, s: Session, delivered: set<nat>, i: nat, s': Session)
    requires Recalls(w, s, delivered) && Nonce(w.gen, i) in s.skip && Aligned(w, s', delivered + {i})
    requires s'.seen == RecordDelivered(s.seen, Nonce(w.gen, i)) && s'.skip == s.skip - {Nonce(w.gen, i)}
    requires s'.recv == s.recv && s'.maxSkip == s.maxSkip
    ensures Recalls(w, s', delivered + {i})
  {
    var n := Nonce(w.gen, i);
    CardLe(SeenOf(s.seen, w.gen), SeenOf(s.seen, w.gen));
    RecordKeepsCurrent(s.seen, n, w.gen);
    assert n !in s.seen;
    assert KeysOf(s'.skip, w.gen) == KeysOf(s.skip, w.gen) - {n} && n in KeysOf(s.skip, w.gen);
    assert forall k :: k in SeenOf(s.seen, w.gen) ==> k in SeenOf(s'.seen, w.gen);
    assert n in SeenOf(s'.seen, w.gen);
  }

  lemma WindowCount(seen: set<Nonce>, gen: nat, count: nat, span: nat)
    requires forall n :: n in seen && n.gen == gen ==> n.num < count
    ensures |SeenOf(Window(seen, gen, count, span), gen)| <= span
  {
    CountBetween(SeenOf(Window(seen, gen, count, span), gen), gen, if count > span then count - span else 0, count);
  }

  lemma SteppedRoom(w: Stream, s: Session, i: nat, s': Session)
    requires Room(s) && s.generation == w.gen == s'.generation && s.recv.count <= i && s'.maxSkip == s.maxSkip
    requires forall n :: n in s.seen && n.gen == w.gen ==> n.num < s.recv.count
    requires s'.seen == Window(RecordDelivered(s.seen, Nonce(w.gen, i)), w.gen, i + 1, 2 * s.maxSkip)
    requires s'.skip == Prune(s.skip + SkipRange(s.recv.key, s.recv.count, i, w.gen), w.gen, 2 * s.maxSkip)
    ensures Room(s')
  {
    RecordedExactly(s.seen, Nonce(w.gen, i));
    WindowCount(RecordDelivered(s.seen, Nonce(w.gen, i)), w.gen, i + 1, 2 * s.maxSkip);
    PruneBounded(s.skip + SkipRange(s.recv.key, s.recv.count, i, w.gen), w.gen, 2 * s.maxSkip);
    CardLe(KeysOf(s'.skip, w.gen), s'.skip.Keys);
  }

  lemma SteppedRemembers(w: Stream, s: Session, delivered: set<nat>, i: nat, s': Session)
    requires Room(s) && s.generation == w.gen && s.recv.count <= i && s'.maxSkip == s.maxSkip && s'.recv.count == i + 1
    requires Remembered(w, s, delivered)
    requires s'.seen == Window(RecordDelivered(s.seen, Nonce(w.gen, i)), w.gen, i + 1, 2 * s.maxSkip)
    ensures Remembered(w, s', delivered + {i})
  {
    var n := Nonce(w.gen, i);
    RecordKeepsCurrent(s.seen, n, w.gen);
    forall j | j in delivered + {i} && j + 2 * s.maxSkip >= i + 1 ensures Nonce(w.gen, j) in s'.seen {
      assert Nonce(w.gen, j) in SeenOf(s.seen, w.gen) + {n};
      assert Nonce(w.gen, j) in SeenOf(RecordDelivered(s.seen, n), w.gen);
    }
  }

  lemma SteppedRecalls(w: Stream, s: Session, delivered: set<nat>, i: nat, s': Session)
    requires Recalls(w, s, delivered) && s.recv.count <= i && Aligned(w, s', delivered + {i})
    requires s'.seen == Stepped(w, s, i).seen && s'.skip == Stepped(w, s, i).skip
    requires s'.recv.count == i + 1 && s'.maxSkip == s.maxSkip
    ensures Recalls(w, s', delivered + {i})
  {
    SteppedRoom(w, s, i, s');
    SteppedRemembers(w, s, delivered, i, s');
  }

  /** Opening copy i, from the cache or on the chain. */
  lemma OpenRecalls(w: Stream, s: Session, delivered: set<nat>, i: nat)
    requires Recalls(w, s, delivered) && AfterStaging(s, Nonce(w.gen, i), SealedAt(w, i), w.offers(i)).1.Ok?
    ensures Recalls(w, AfterStaging(s, Nonce(w.gen, i), SealedAt(w, i), w.offers(i)).0, delivered + {i})
  {
    OpenExact(w, s, delivered, i);
    if Nonce(w.gen, i) in s.skip {
      CachedRace(w, s, i);
      var s1 := FromCache(s, Nonce(w.gen, i), SealedAt(w, i), w.offers(i)).0;
      RaceRecords(s1, i, w.offers(i).Some?);
      CachedRoom(w, s, delivered, i, ResolveRace(s1, i, w.offers(i).Some?));
    } else {
      ChainRace(w, s, i);
      RaceRecords(Stepped(w, s, i), i, w.offers(i).Some?);
      SteppedRecalls(w, s, delivered, i, ResolveRace(Stepped(w, s, i), i, w.offers(i).Some?));
    }
  }

  lemma CachedRace(w: Stream, s: Session, i: nat)
    requires Nonce(w.gen, i) in s.skip && s.skip[Nonce(w.gen, i)] == MsgKey(Advance(w.seed, i))
    ensures AfterStaging(s, Nonce(w.gen, i), SealedAt(w, i), w.offers(i)).0
         == ResolveRace(FromCache(s, Nonce(w.gen, i), SealedAt(w, i), w.offers(i)).0, i, w.offers(i).Some?)
  {}

  lemma ChainRace(w: Stream, s: Session, i: nat)
    requires s.generation == w.gen && s.recv.key == Advance(w.seed, s.recv.count) && Nonce(w.gen, i) !in s.skip
    requires s.recv.count <= i <= s.recv.count + s.maxSkip
    ensures AfterStaging(s, Nonce(w.gen, i), SealedAt(w, i), w.offers(i)).0 == ResolveRace(Stepped(w, s, i), i, w.offers(i).Some?)
  {
    ChainStep(w, s, i);
  }

  /** Settling a race leaves the records, the cache and the counter alone. */
  lemma RaceRecords(s: Session, num: nat, carries: bool)
    ensures var s' := ResolveRace(s, num, carries);
            s'.seen == s.seen && s'.skip == s.skip && s'.recv == s.recv && s'.maxSkip == s.maxSkip && s'.generation == s.generation
  {}

  lemma CopyRecalls(w: Stream, s: Session, delivered: set<nat>, i: nat, now: Clock)
    requires Recalls(w, s, delivered)
    ensures var (s', r) := Dispatch(s, Sent(w, i), now);
            Recalls(w, s', if r.Ok? then delivered + {i} else delivered)
  {
    ArrivalExact(w, s, delivered, i, now);
    var n, aad := Nonce(w.gen, i), w.offers(i);
    FieldsOfAad(aad);
    DispatchUnified(s, Sent(w, i), aad, now);
    StagedSlotOnly(s, n, aad, now);
    var s1 := Staged(s, n, aad, now).0;
    SlotIrrelevant(w, s, s1, delivered);
    SameRecords(w, s, s1, delivered);
    if Dispatch(s, Sent(w, i), now).1.Ok? {
      OpenRecalls(w, s1, delivered, i);
    } else {
      SameRecords(w, s, Dispatch(s, Sent(w, i), now).0, delivered);
    }
  }

  lemma PreviousRecalls(w: Stream, s: Session, delivered: set<nat>, n: Nonce, body: Cipher, aad: Option<Payload>)
    requires Recalls(w, s, delivered) && s.previous.Some? && n.gen == s.previous.value.gen
    ensures Recalls(w, FromPrevious(s, n, body, aad).0, delivered)
  {
    PreviousKeepsAligned(w, s, delivered, n, body, aad);
    PreviousRecords(s, n, body, aad);
    var s' := FromPrevious(s, n, body, aad).0;
    if s' != s {
      RecordKeepsCurrent(s.seen, n, w.gen);
      assert forall k :: k in SeenOf(s.seen, w.gen) ==> k in SeenOf(s'.seen, w.gen);
      CardLe(KeysOf(s'.skip, w.gen), KeysOf(s.skip, w.gen));
    }
  }

  lemma PreviousRecords(s: Session, n: Nonce, body: Cipher, aad: Option<Payload>)
    requires s.previous.Some? && n.gen == s.previous.value.gen < s.generation
    ensures var s' := FromPrevious(s, n, body, aad).0;
            && s'.recv == s.recv && s'.maxSkip == s.maxSkip && s'.generation == s.generation
            && (s' == s || s'.seen == RecordDelivered(s.seen, n))
            && KeysOf(s'.skip, s.generation) <= KeysOf(s.skip, s.generation)
  {}

  lemma OlderRecalls(w: Stream, s: Session, delivered: set<nat>, m: Message, now: Clock)
    requires Recalls(w, s, delivered) && m.nonce.gen < w.gen
    ensures Recalls(w, Dispatch(s, m, now).0, delivered)
  {
    if BuildAad(m.fields).Err? {
      PartialFieldsRefused(s, m, now);
    } else {
      var aad := BuildAad(m.fields).value;
      DispatchUnified(s, m, aad, now);
      if s.previous.Some? && m.nonce.gen == s.previous.value.gen { PreviousRecalls(w, s, delivered, m.nonce, m.body, aad); }
    }
  }

  lemma MisfitRecalls(w: Stream, s: Session, delivered: set<nat>, m: Message, now: Clock)
    requires Recalls(w, s, delivered) && Misfit(m)
    ensures Recalls(w, Dispatch(s, m, now).0, delivered)
  {
    MisfitFails(w, s, delivered, m, now);
    SameRecords(w, s, Dispatch(s, m, now).0, delivered);
  }

  lemma OwnStepsRecall(w: Stream, s: Session, delivered: set<nat>, text: Plaintext, env: Env)
    requires Recalls(w, s, delivered)
    ensures Recalls(w, Encrypt(s, text, env).0, delivered) && Recalls(w, TakeAck(s).0, delivered)
  {
    OwnStepsKeepAligned(w, s, delivered, text, env);
    SameRecords(w, s, Encrypt(s, text, env).0, delivered);
    SameRecords(w, s, TakeAck(s).0, delivered);
  }

  lemma ArrivalRecalls(w: Stream, s: Session, delivered: set<nat>, a: Arrival)
    requires Recalls(w, s, delivered) && (a.Older? ==> a.msg.nonce.gen < w.gen)
    ensures var (s', d) := Meets(w, s, a);
            Recalls(w, s', if d.Some? then delivered + {d.value.num} else delivered)
  {
    OneArrival(w, s, delivered, a);
    match a
    case Older(m, now) => OlderRecalls(w, s, delivered, m, now);
    case OwnSend(text, env) => OwnStepsRecall(w, s, delivered, text, env);
    case HandOut => SameRecords(w, s, TakeAck(s).0, delivered);
    case Junk(id, header, fields, now) => MisfitRecalls(w, s, delivered, Arriving(w, a), now);
    case Copy(i, header, fields, now) =>
      OnlyFields(fields, w.offers(i));
      if Genuine(w, a) { CopyRecalls(w, s, delivered, i, now); } else { MisfitRecalls(w, s, delivered, Arriving(w, a), now); }
  }

  // ----- Every run -----

  /** The numbers delivered up to the end of a run. */
  ghost function DeliveredBy(w: Stream, s: Session, delivered: set<nat>, arrivals: seq<Arrival>): set<nat>
    decreases |arrivals|
  {
    if arrivals == [] then delivered
    else
      var (s', d) := Meets(w, s, arrivals[0]);
      DeliveredBy(w, s', if d.Some? then delivered + {d.value.num} else delivered, arrivals[1..])
  }

  lemma {:induction false} RunRecalls(w: Stream, s: Session, delivered: set<nat>, arrivals: seq<Arrival>)
    requires Recalls(w, s, delivered) && WellPlaced(w, arrivals)
    ensures Recalls(w, After(w, s, arrivals), DeliveredBy(w, s, delivered, arrivals))
    decreases |arrivals|
  {
    if arrivals != [] {
      var (s', d) := Meets(w, s, arrivals[0]);
      ArrivalRecalls(w, s, delivered, arrivals[0]);
      RunRecalls(w, s', if d.Some? then delivered + {d.value.num} else delivered, arrivals[1..]);
    }
  }

  lemma {:induction false} NumbersDelivered(w: Stream, s: Session, delivered: set<nat>, arrivals: seq<Arrival>, i: nat)
    requires i in delivered || i in Numbers(w, s, arrivals)
    ensures i in DeliveredBy(w, s, delivered, arrivals)
    decreases |arrivals|
  {
    if arrivals != [] {
      var (s', d) := Meets(w, s, arrivals[0]);
      NumbersDelivered(w, s', if d.Some? then delivered + {d.value.num} else delivered, arrivals[1..], i);
    }
  }

  /** A recorded number is refused as a replay, whatever arrives under it. */
  lemma RecordedIsReplay(s: Session, m: Message, now: Clock)
    requires m.nonce in s.seen && s.generation < GEN_MAX
    requires m.nonce.gen == s.generation || (s.previous.Some? && m.nonce.gen == s.previous.value.gen)
    ensures Dispatch(s, m, now) == (s, Err(Replay))
  {}

  /**
   Over every run of arrivals: whatever later arrives under the number of a message
   that was delivered and is not more than 2 * max_skip behind the counter, the same
   bytes, other rekey fields or another body altogether, is refused as a replay and
   changes nothing.
   */
  lemma ReplayAlwaysRefused(w: Stream, s: Session, delivered: set<nat>, arrivals: seq<Arrival>, m: Message, now: Clock)
    requires Recalls(w, s, delivered) && WellPlaced(w, arrivals)
    requires m.nonce.gen == w.gen && (m.nonce.num in delivered || m.nonce.num in Numbers(w, s, arrivals))
    requires m.nonce.num + 2 * After(w, s, arrivals).maxSkip >= After(w, s, arrivals).recv.count
    ensures Dispatch(After(w, s, arrivals), m, now) == (After(w, s, arrivals), Err(Replay))
  {
    RunRecalls(w, s, delivered, arrivals);
    NumbersDelivered(w, s, delivered, arrivals, m.nonce.num);
    assert m.nonce == Nonce(w.gen, m.nonce.num);
    RecordedIsReplay(After(w, s, arrivals), m, now);
  }
}
