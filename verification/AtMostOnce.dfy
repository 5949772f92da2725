/**
 At-most-once delivery.  In every run of a session, whatever the network and the
 peer do, no message key ever opens a second message, so no ciphertext is ever
 delivered twice: across generations, out of order, after the replay window was
 pruned or capped, and across resyncs and rekey races.
 */
module AtMostOnce {
  import opened Symbolic
  import opened RatchetSpec
  import opened RatchetRuns

  // ----- Deliveries of a run -----

  /** The ciphertext an operation delivers, if it delivers one. */
  ghost function Delivered(s: Session, op: Op): seq<Cipher> {
    match op
    case Receive(n, body) => if Decrypt(s, n, body).1.Ok? then [body] else []
    case ReceiveRekey(m, now) => if DecryptRekey(s, m, now).1.Ok? then [m.body] else []
    case _ => []
  }

  ghost function Deliveries(s: Session, ops: seq<Op>): seq<Cipher>
    decreases |ops|
  {
    if ops == [] then [] else Delivered(s, ops[0]) + Deliveries(Apply(s, ops[0]), ops[1..])
  }

  // ----- The invariant -----

  /** No used or cached key lies at or beyond this point of its chain. */
  ghost predicate Ahead(ck: ChainKey, used: set<MsgKey>, skip: SkipKeys) {
    && (forall k :: k in used && Seed(k.chain) == Seed(ck) ==> Pos(k.chain) < Pos(ck))
    && (forall n :: n in skip && Seed(skip[n].chain) == Seed(ck) ==> Pos(skip[n].chain) < Pos(ck))
  }

  /** Cached keys are unused, pairwise different, and from chains adopted at some point. */
  ghost predicate CacheOk(used: set<MsgKey>, skip: SkipKeys, adopted: set<ChainKey>) {
    && (forall k :: k in used ==> Seed(k.chain) in adopted)
    && (forall n :: n in skip ==> Seed(skip[n].chain) in adopted && skip[n] !in used)
    && (forall n, m :: n in skip && m in skip && n != m ==> skip[n] != skip[m])
  }

  ghost predicate ChainsOk(s: Session, used: set<MsgKey>, adopted: set<ChainKey>) {
    && Seed(s.recv.key) in adopted && Ahead(s.recv.key, used, s.skip)
    && (s.previous.Some? ==>
          && Seed(s.previous.value.key) in adopted && Ahead(s.previous.value.key, used, s.skip)
          && Seed(s.previous.value.key) != Seed(s.recv.key))
  }

  /** Every adopted chain was derived under an earlier root; the staged ones never were adopted. */
  ghost predicate ProposalsOk(s: Session, adopted: set<ChainKey>) {
    && (forall a :: a in adopted ==> SeedDepth(a) < RootDepth(s.root))
    && (s.outgoing.Some? ==>
          var p := s.outgoing.value;
          p.recv.RekeyRecv? && p.recv.root == s.root && p.root == NextRoot(s.root, p.recv.ss))
    && (s.incoming.slot.Some? ==>
          var p := s.incoming.slot.value;
          && p.recv.RekeySend? && p.root == NextRoot(p.recv.root, p.recv.ss) && p.recv !in adopted
          && RootDepth(s.root) <= RootDepth(p.recv.root) + 1
          && (s.outgoing.Some? ==> p.recv.root == s.root))
  }

  ghost predicate Inv(s: Session, used: set<MsgKey>, adopted: set<ChainKey>) {
    CacheOk(used, s.skip, adopted) && ChainsOk(s, used, adopted) && ProposalsOk(s, adopted)
  }

  // ----- Moving along a chain -----

  lemma {:induction false} SkipRangeFacts(ck: ChainKey, base: nat, target: nat, gen: nat)
    ensures forall n :: n in SkipRange(ck, base, target, gen) ==>
              && n.gen == gen && base <= n.num < target
              && Seed(SkipRange(ck, base, target, gen)[n].chain) == Seed(ck)
              && Pos(SkipRange(ck, base, target, gen)[n].chain) == Pos(ck) + (n.num - base)
  {
    var range := SkipRange(ck, base, target, gen);
    forall n | n in range
      ensures n.gen == gen && base <= n.num < target
      ensures Seed(range[n].chain) == Seed(ck) && Pos(range[n].chain) == Pos(ck) + (n.num - base)
    {
      SeedPosAdvance(ck, n.num - base);
    }
  }

  ghost predicate SubMap(a: SkipKeys, b: SkipKeys) {
    forall n :: n in a ==> n in b && a[n] == b[n]
  }

  lemma {:induction false} PruneDrops(store: SkipKeys, gen: nat, budget: nat)
    ensures SubMap(Prune(store, gen, budget), store)
  {}

  /** Caching the positions passed over keeps the cache sound, and the chain stays ahead of it. */
  lemma {:induction false} SkipForward(used: set<MsgKey>, skip: SkipKeys, adopted: set<ChainKey>, ck: ChainKey,
                    base: nat, target: nat, gen: nat, skip': SkipKeys)
    requires CacheOk(used, skip, adopted) && Seed(ck) in adopted && Ahead(ck, used, skip)
    requires base <= target && SubMap(skip', skip + SkipRange(ck, base, target, gen))
    ensures CacheOk(used, skip', adopted) && Ahead(Advance(ck, target - base), used, skip')
  {
    AheadMoves(used, skip, ck, base, target, gen, skip');
    CacheGrows(used, skip, adopted, ck, base, target, gen, skip');
  }

  lemma {:induction false} AheadMoves(used: set<MsgKey>, skip: SkipKeys, ck: ChainKey, base: nat, target: nat, gen: nat, skip': SkipKeys)
    requires Ahead(ck, used, skip) && base <= target && SubMap(skip', skip + SkipRange(ck, base, target, gen))
    ensures Ahead(Advance(ck, target - base), used, skip')
  {
    SkipRangeFacts(ck, base, target, gen);
    SeedPosAdvance(ck, target - base);
  }

  lemma {:induction false} CacheGrows(used: set<MsgKey>, skip: SkipKeys, adopted: set<ChainKey>, ck: ChainKey,
                    base: nat, target: nat, gen: nat, skip': SkipKeys)
    requires CacheOk(used, skip, adopted) && Seed(ck) in adopted && Ahead(ck, used, skip)
    requires SubMap(skip', skip + SkipRange(ck, base, target, gen))
    ensures CacheOk(used, skip', adopted)
  {
    SkipRangeFacts(ck, base, target, gen);
  }

  /** A chain with another seed is not disturbed. */
  lemma {:induction false} SkipElsewhere(used: set<MsgKey>, skip: SkipKeys, ck: ChainKey, base: nat, target: nat, gen: nat,
                      skip': SkipKeys, other: ChainKey)
    requires Ahead(other, used, skip) && Seed(other) != Seed(ck)
    requires SubMap(skip', skip + SkipRange(ck, base, target, gen))
    ensures Ahead(other, used, skip')
  {
    SkipRangeFacts(ck, base, target, gen);
  }

  /** Using the key at the head of a chain and stepping past it. */
  lemma {:induction false} UseHead(used: set<MsgKey>, skip: SkipKeys, adopted: set<ChainKey>, ck: ChainKey)
    requires CacheOk(used, skip, adopted) && Seed(ck) in adopted && Ahead(ck, used, skip)
    ensures MsgKey(ck) !in used
    ensures CacheOk(used + {MsgKey(ck)}, skip, adopted) && Ahead(Next(ck), used + {MsgKey(ck)}, skip)
  {}

  /** One delivery from a chain: skip ahead, cache what was passed over, use the key, step past it. */
  lemma {:induction false} DeliverFrom(used: set<MsgKey>, skip: SkipKeys, adopted: set<ChainKey>, c: Chain, num: nat,
                    gen: nat, skip': SkipKeys)
    requires CacheOk(used, skip, adopted) && Seed(c.key) in adopted && Ahead(c.key, used, skip)
    requires SubMap(skip', skip + SkipRange(c.key, c.count, num, gen))
    ensures var head := Target(c, num);
            && MsgKey(head) !in used && Seed(head) == Seed(c.key)
            && CacheOk(used + {MsgKey(head)}, skip', adopted)
            && Ahead(Next(head), used + {MsgKey(head)}, skip')
  {
    if num > c.count {
      SkipForward(used, skip, adopted, c.key, c.count, num, gen, skip');
      SeedPosAdvance(c.key, num - c.count);
    } else {
      assert SkipRange(c.key, c.count, num, gen) == map[];
      assert Target(c, num) == c.key;
    }
    UseHead(used, skip', adopted, Target(c, num));
  }

  lemma {:induction false} DeliverElsewhere(used: set<MsgKey>, skip: SkipKeys, c: Chain, num: nat, gen: nat, skip': SkipKeys, other: ChainKey)
    requires Ahead(other, used, skip) && Seed(other) != Seed(c.key)
    requires SubMap(skip', skip + SkipRange(c.key, c.count, num, gen))
    ensures Ahead(other, used + {MsgKey(Target(c, num))}, skip')
  {
    assert Ahead(other, used, skip') by {
      SkipElsewhere(used, skip, c.key, c.count, num, gen, skip', other);
    }
    assert Seed(Target(c, num)) == Seed(c.key) by {
      SeedPosAdvance(c.key, if num > c.count then num - c.count else 0);
    }
    UseHeadElsewhere(used, skip', Target(c, num), other);
  }

  lemma {:induction false} UseHeadElsewhere(used: set<MsgKey>, skip: SkipKeys, ck: ChainKey, other: ChainKey)
    requires Ahead(other, used, skip) && Seed(other) != Seed(ck)
    ensures Ahead(other, used + {MsgKey(ck)}, skip)
  {}

  // ----- Each receive path -----

  lemma {:induction false} CachePath(s: Session, used: set<MsgKey>, adopted: set<ChainKey>, n: Nonce, body: Cipher, aad: Option<Payload>)
    requires Inv(s, used, adopted) && n in s.skip && FromCache(s, n, body, aad).1.Ok?
    ensures body.key !in used
    ensures Inv(FromCache(s, n, body, aad).0, used + {body.key}, adopted)
  {}

  lemma {:induction false} ChainPath(s: Session, used: set<MsgKey>, adopted: set<ChainKey>, n: Nonce, body: Cipher, aad: Option<Payload>)
    requires Inv(s, used, adopted) && FromChain(s, n, body, aad).1.Ok?
    ensures body.key !in used
    ensures Inv(FromChain(s, n, body, aad).0, used + {body.key}, adopted)
  {
    var skip' := FromChain(s, n, body, aad).0.skip;
    PruneDrops(s.skip + SkipRange(s.recv.key, s.recv.count, n.num, s.generation), s.generation, 2 * s.maxSkip);
    DeliverFrom(used, s.skip, adopted, s.recv, n.num, s.generation, skip');
    if s.previous.Some? {
      DeliverElsewhere(used, s.skip, s.recv, n.num, s.generation, skip', s.previous.value.key);
    }
  }

  lemma {:induction false} PreviousPath(s: Session, used: set<MsgKey>, adopted: set<ChainKey>, n: Nonce, body: Cipher, aad: Option<Payload>)
    requires Inv(s, used, adopted) && s.previous.Some? && n.gen == s.previous.value.gen
    requires FromPrevious(s, n, body, aad).1.Ok?
    ensures body.key !in used
    ensures Inv(FromPrevious(s, n, body, aad).0, used + {body.key}, adopted)
  {
    if n in s.skip {
      CachePath(s, used, adopted, n, body, aad);
    } else {
      var p := s.previous.value;
      var c, skip' := Chain(p.key, p.anchor), FromPrevious(s, n, body, aad).0.skip;
      PruneDrops(s.skip + SkipRange(p.key, p.anchor, n.num, p.gen), s.generation, 2 * s.maxSkip);
      DeliverFrom(used, s.skip, adopted, c, n.num, p.gen, skip');
      DeliverElsewhere(used, s.skip, c, n.num, p.gen, skip', s.recv.key);
    }
  }

  /** Adopting a chain that was never adopted before. */
  lemma {:induction false} AdoptKeeps(s: Session, used: set<MsgKey>, adopted: set<ChainKey>, s': Session, ck: ChainKey)
    requires Inv(s, used, adopted) && !ck.Next? && ck !in adopted
    requires s'.recv.key == ck && s'.skip == s.skip
    requires s'.previous.Some? && s'.previous.value.key == s.recv.key
    requires s'.root.NextRoot? && RootDepth(s.root) <= RootDepth(s'.root) && SeedDepth(ck) < RootDepth(s'.root)
    requires s'.outgoing.None?
    requires s'.incoming.slot.Some? ==>
               && s'.incoming.slot == s.incoming.slot && s'.incoming.slot.value.recv != ck
               && RootDepth(s'.root) <= RootDepth(s.incoming.slot.value.recv.root) + 1
    ensures Inv(s', used, adopted + {ck})
  {
    assert Seed(ck) == ck;
  }

  lemma {:induction false} CommitIncomingKeeps(s: Session, used: set<MsgKey>, adopted: set<ChainKey>)
    requires Inv(s, used, adopted) && s.incoming.slot.Some?
    ensures var s0 := if s.outgoing.Some? then CancelOutgoing(s) else s;
            Inv(CommitIncoming(s0), used, adopted + {s.incoming.slot.value.recv})
  {
    var s0 := if s.outgoing.Some? then CancelOutgoing(s) else s;
    AdoptKeeps(s0, used, adopted, CommitIncoming(s0), s.incoming.slot.value.recv);
  }

  lemma {:induction false} CommitOutgoingKeeps(s: Session, used: set<MsgKey>, adopted: set<ChainKey>)
    requires Inv(s, used, adopted) && s.outgoing.Some?
    ensures Inv(CommitOutgoing(s), used, adopted + {s.outgoing.value.recv})
  {
    AdoptKeeps(s, used, adopted, CommitOutgoing(s), s.outgoing.value.recv);
  }

  lemma {:induction false} PendingPath(s: Session, used: set<MsgKey>, adopted: set<ChainKey>, n: Nonce, body: Cipher, aad: Option<Payload>)
    requires Inv(s, used, adopted) && PendingText(s, n, body, aad).Some?
    ensures body.key !in used
    ensures Inv(CommitAt(s, n.num), used + {body.key}, adopted + {s.incoming.slot.value.recv})
  {
    var ck := s.incoming.slot.value.recv;
    var s0 := if s.outgoing.Some? then CancelOutgoing(s) else s;
    var s1, a := CommitIncoming(s0), adopted + {ck};
    CommitIncomingKeeps(s, used, adopted);
    assert Target(s1.recv, n.num) == Advance(ck, n.num);
    var skip' := CommitAt(s, n.num).skip;
    PruneDrops(s1.skip + SkipRange(ck, 0, n.num, s1.generation), s1.generation, 2 * s1.maxSkip);
    DeliverFrom(used, s1.skip, a, s1.recv, n.num, s1.generation, skip');
    DeliverElsewhere(used, s1.skip, s1.recv, n.num, s1.generation, skip', s1.previous.value.key);
  }

  lemma {:induction false} StageKeeps(s: Session, used: set<MsgKey>, adopted: set<ChainKey>, n: Nonce, offer: Payload, now: Clock)
    requires Inv(s, used, adopted)
    ensures Inv(Stage(s, n, offer, now).0, used, adopted)
  {}

  lemma {:induction false} RaceKeeps(s: Session, used: set<MsgKey>, adopted: set<ChainKey>, num: nat, carries: bool)
    requires Inv(s, used, adopted)
    ensures Inv(ResolveRace(s, num, carries), used, adopted)
  {}

  // ----- Every operation -----

  lemma {:induction false} ReceiveKeeps(s: Session, used: set<MsgKey>, adopted: set<ChainKey>, n: Nonce, body: Cipher)
    returns (adopted': set<ChainKey>)
    requires Inv(s, used, adopted)
    ensures Decrypt(s, n, body).1.Ok? ==> body.Sealed? && body.key !in used
    ensures Inv(Decrypt(s, n, body).0, if Decrypt(s, n, body).1.Ok? then used + {body.key} else used, adopted')
  {
    adopted' := adopted;
    if Validate(s, n).Err? || Decrypt(s, n, body).1.Err? {
    } else if s.previous.Some? && n.gen == s.previous.value.gen {
      PreviousPath(s, used, adopted, n, body, None);
    } else if n in s.skip {
      CachePath(s, used, adopted, n, body, None);
    } else if FromChain(s, n, body, None).1.Ok? {
      ChainPath(s, used, adopted, n, body, None);
    } else {
      PendingPath(s, used, adopted, n, body, None);
      adopted' := adopted + {s.incoming.slot.value.recv};
    }
  }

  lemma {:induction false} AfterStagingKeeps(s: Session, used: set<MsgKey>, adopted: set<ChainKey>,
                                             n: Nonce, body: Cipher, aad: Option<Payload>)
    returns (adopted': set<ChainKey>)
    requires Inv(s, used, adopted)
    ensures var (s', r) := AfterStaging(s, n, body, aad);
            && (r.Ok? ==> body.Sealed? && body.key !in used)
            && Inv(s', if r.Ok? then used + {body.key} else used, adopted')
  {
    adopted' := adopted;
    if AfterStaging(s, n, body, aad).1.Err? {
    } else if n in s.skip {
      CachePath(s, used, adopted, n, body, aad);
      RaceKeeps(FromCache(s, n, body, aad).0, used + {body.key}, adopted, n.num, aad.Some?);
    } else if FromChain(s, n, body, aad).1.Ok? {
      ChainPath(s, used, adopted, n, body, aad);
      RaceKeeps(FromChain(s, n, body, aad).0, used + {body.key}, adopted, n.num, aad.Some?);
    } else {
      PendingPath(s, used, adopted, n, body, aad);
      adopted' := adopted + {s.incoming.slot.value.recv};
    }
  }

  lemma {:induction false} ReceiveRekeyKeeps(s: Session, used: set<MsgKey>, adopted: set<ChainKey>, m: Message, now: Clock)
    returns (adopted': set<ChainKey>)
    requires Inv(s, used, adopted)
    ensures DecryptRekey(s, m, now).1.Ok? ==> m.body.Sealed? && m.body.key !in used
    ensures Inv(DecryptRekey(s, m, now).0, if DecryptRekey(s, m, now).1.Ok? then used + {m.body.key} else used, adopted')
  {
    adopted' := adopted;
    var n, aad := m.nonce, BuildAad(m.fields);
    if Validate(s, n).Err? || aad.Err? {
    } else if s.previous.Some? && n.gen == s.previous.value.gen {
      if FromPrevious(s, n, m.body, aad.value).1.Ok? {
        PreviousPath(s, used, adopted, n, m.body, aad.value);
      }
    } else {
      var s1 := if aad.value.Some? then Stage(s, n, aad.value.value, now).0 else s;
      if aad.value.Some? { StageKeeps(s, used, adopted, n, aad.value.value, now); }
      if DecryptRekey(s, m, now) == AfterStaging(s1, n, m.body, aad.value) {
        adopted' := AfterStagingKeeps(s1, used, adopted, n, m.body, aad.value);
      }
    }
  }

  lemma {:induction false} ResyncKeeps(s: Session, used: set<MsgKey>, adopted: set<ChainKey>, target: nat, now: Clock)
    requires Inv(s, used, adopted)
    ensures Inv(Resync(s, target, now).0, used, adopted)
  {
    CancelKeeps(s, used, adopted);
    var s1 := if s.incoming.slot.Some? then CancelIncoming(s) else s;
    CancelKeeps(s1, used, adopted);
    var s2 := if s1.outgoing.Some? then CancelOutgoing(s1) else s1;
    if Resync(s, target, now).1.Ok? {
      ForwardKeeps(s2, used, adopted, target, Resync(s, target, now).0);
    } else {
      assert Resync(s, target, now).0 in {s, s1, s2};
    }
  }

  lemma {:induction false} CancelKeeps(s: Session, used: set<MsgKey>, adopted: set<ChainKey>)
    requires Inv(s, used, adopted)
    ensures Inv(CancelIncoming(s), used, adopted) && Inv(CancelOutgoing(s), used, adopted)
  {}

  lemma {:induction false} ForwardKeeps(s: Session, used: set<MsgKey>, adopted: set<ChainKey>, target: nat, s': Session)
    requires Inv(s, used, adopted) && target > s.recv.count
    requires s'.root == s.root && s'.previous == s.previous
    requires s'.recv.key == Advance(s.recv.key, target - s.recv.count)
    requires s'.skip == Prune(s.skip + SkipRange(s.recv.key, s.recv.count, target, s.generation), s.generation, 2 * s.maxSkip)
    requires s'.incoming.slot.None? && s'.outgoing.None?
    ensures Inv(s', used, adopted)
  {
    var c := s.recv;
    PruneDrops(s.skip + SkipRange(c.key, c.count, target, s.generation), s.generation, 2 * s.maxSkip);
    SkipForward(used, s.skip, adopted, c.key, c.count, target, s.generation, s'.skip);
    SeedPosAdvance(c.key, target - c.count);
    if s.previous.Some? {
      SkipElsewhere(used, s.skip, c.key, c.count, target, s.generation, s'.skip, s.previous.value.key);
    }
  }

  lemma {:induction false} AckKeeps(s: Session, used: set<MsgKey>, adopted: set<ChainKey>, at: nat)
    returns (adopted': set<ChainKey>)
    requires Inv(s, used, adopted)
    ensures Inv(ProcessAck(s, at).0, used, adopted')
  {
    adopted' := adopted;
    if ProcessAck(s, at).1 && s.outgoing.Some? {
      CommitOutgoingKeeps(s, used, adopted);
      adopted' := adopted + {s.outgoing.value.recv};
    }
  }

  /** Sending and requesting a rekey stage proposals but never touch the receiving side. */
  lemma {:induction false} SendKeeps(s: Session, used: set<MsgKey>, adopted: set<ChainKey>, text: Plaintext, env: Env)
    requires Inv(s, used, adopted)
    ensures Inv(Encrypt(s, text, env).0, used, adopted)
  {
    SendStages(s, text, env);
    StagedOnly(s, used, adopted, Encrypt(s, text, env).0);
  }

  lemma {:induction false} SendStages(s: Session, text: Plaintext, env: Env)
    ensures var s' := Encrypt(s, text, env).0;
            && s' == s.(send := s'.send, outgoing := s'.outgoing, queue := s'.queue)
            && (s'.outgoing == s.outgoing
                || (s.incoming.slot.None? && s.peer.Some? && env.eph.Some?
                    && s'.outgoing == Some(MakeOutgoing(s.root, s.peer.value, env.newPair, env.eph.value))))
  {}

  lemma {:induction false} StagedOnly(s: Session, used: set<MsgKey>, adopted: set<ChainKey>, s': Session)
    requires Inv(s, used, adopted)
    requires s'.recv == s.recv && s'.previous == s.previous && s'.skip == s.skip && s'.root == s.root
    requires s'.incoming.slot == s.incoming.slot
    requires s'.outgoing == s.outgoing || (s'.outgoing.Some? && s.incoming.slot.None?
               && s'.outgoing.value.recv.RekeyRecv? && s'.outgoing.value.recv.root == s.root
               && s'.outgoing.value.root == NextRoot(s.root, s'.outgoing.value.recv.ss))
    ensures Inv(s', used, adopted)
  {}

  lemma {:induction false} OpKeeps(s: Session, used: set<MsgKey>, adopted: set<ChainKey>, op: Op)
    returns (used': set<MsgKey>, adopted': set<ChainKey>)
    requires Inv(s, used, adopted)
    ensures Inv(Apply(s, op), used', adopted')
    ensures |Delivered(s, op)| <= 1 && FreshKeys(Delivered(s, op), used) && used <= used'
    ensures forall i :: 0 <= i < |Delivered(s, op)| ==> Delivered(s, op)[i].key in used'
  {
    used', adopted' := used, adopted;
    match op
    case Send(text, env) => SendKeeps(s, used, adopted, text, env);
    case Receive(n, body) =>
      adopted' := ReceiveKeeps(s, used, adopted, n, body);
      if Decrypt(s, n, body).1.Ok? { used' := used + {body.key}; }
    case ReceiveRekey(m, now) =>
      adopted' := ReceiveRekeyKeeps(s, used, adopted, m, now);
      if DecryptRekey(s, m, now).1.Ok? { used' := used + {m.body.key}; }
    case AckArrived(at) => adopted' := AckKeeps(s, used, adopted, at);
    case HandOutAck => StagedOnly(s, used, adopted, TakeAck(s).0);
    case RequestRekey(peer, env) => StagedOnly(s, used, adopted, DhRekey(s, peer, env).0);
    case Resynchronise(target, now) => ResyncKeeps(s, used, adopted, target, now);
  }

  // ----- The theorem -----

  ghost predicate FreshKeys(d: seq<Cipher>, used: set<MsgKey>) {
    && (forall i :: 0 <= i < |d| ==> d[i].Sealed? && d[i].key !in used)
    && (forall i, j :: 0 <= i < j < |d| ==> d[i].key != d[j].key)
  }

  lemma {:induction false} JoinOnce(first: seq<Cipher>, rest: seq<Cipher>, used: set<MsgKey>, used': set<MsgKey>)
    requires |first| <= 1 && FreshKeys(first, used) && FreshKeys(rest, used') && used <= used'
    requires forall i :: 0 <= i < |first| ==> first[i].key in used'
    ensures FreshKeys(first + rest, used)
  {
    var d := first + rest;
    forall i, j | 0 <= i < j < |d| ensures d[i].key != d[j].key {
      assert d[j] == rest[j - |first|];
    }
  }

  lemma {:induction false} RunDeliversOnce(s: Session, used: set<MsgKey>, adopted: set<ChainKey>, ops: seq<Op>)
    requires Inv(s, used, adopted)
    ensures FreshKeys(Deliveries(s, ops), used)
    decreases |ops|
  {
    if ops != [] {
      var used', adopted' := OpKeeps(s, used, adopted, ops[0]);
      var first, rest := Delivered(s, ops[0]), Deliveries(Apply(s, ops[0]), ops[1..]);
      RunDeliversOnce(Apply(s, ops[0]), used', adopted', ops[1..]);
      assert forall i :: 0 <= i < |first| ==> first[i].key in used';
      JoinOnce(first, rest, used, used');
    }
  }

  lemma {:induction false} FreshInv(root: Root, isInitiator: bool, pair: KeyPair, peer: Option<PublicKey>)
    requires root.Master?
    ensures var s := Fresh(root, isInitiator, pair, peer); Inv(s, {}, {s.recv.key})
  {}

  ghost predicate KeysDiffer(d: seq<Cipher>) {
    forall i, j :: 0 <= i < j < |d| ==> d[i].Sealed? && d[j].Sealed? && d[i].key != d[j].key && d[i] != d[j]
  }

  /** No message key, hence no ciphertext, is delivered twice in any run of a fresh session. */
  lemma {:induction false} NeverDeliveredTwice(root: Root, isInitiator: bool, pair: KeyPair, peer: Option<PublicKey>, ops: seq<Op>)
    requires root.Master?
    ensures KeysDiffer(Deliveries(Fresh(root, isInitiator, pair, peer), ops))
  {
    var s := Fresh(root, isInitiator, pair, peer);
    FreshInv(root, isInitiator, pair, peer);
    RunDeliversOnce(s, {}, {s.recv.key}, ops);
  }

  /** The ciphertexts handed to the session over a run, in order. */
  function Bodies(ops: seq<Op>): seq<Cipher> {
    if ops == [] then []
    else
      (match ops[0] case Receive(_, body) => [body] case ReceiveRekey(m, _) => [m.body] case _ => []) + Bodies(ops[1..])
  }

  /** Whoever sealed what arrives used one key per number of a generation. */
  ghost predicate OneKeyPerNumber(bodies: seq<Cipher>) {
    forall c, d :: c in bodies && d in bodies && c.Sealed? && d.Sealed? && c.nonce == d.nonce ==> c.key == d.key
  }

  predicate OtherNumber(c: Cipher, d: Cipher) {
    c.Sealed? && d.Sealed? && c.nonce != d.nonce
  }

  ghost predicate NumbersDiffer(d: seq<Cipher>) {
    forall i, j :: 0 <= i < j < |d| ==> OtherNumber(d[i], d[j])
  }

  /** Only what was handed in is delivered. */
  lemma {:induction false} DeliveriesArrived(s: Session, ops: seq<Op>)
    ensures forall c :: c in Deliveries(s, ops) ==> c in Bodies(ops)
    decreases |ops|
  {
    if ops != [] { DeliveriesArrived(Apply(s, ops[0]), ops[1..]); }
  }

  lemma {:induction false} KeysNumber(d: seq<Cipher>, bodies: seq<Cipher>)
    requires KeysDiffer(d) && OneKeyPerNumber(bodies) && forall c :: c in d ==> c in bodies
    ensures NumbersDiffer(d)
  {
    forall i, j | 0 <= i < j < |d| ensures OtherNumber(d[i], d[j]) {
      assert d[i] in bodies && d[j] in bodies;
    }
  }

  /**
   Whatever arrives in whatever order, as long as each number was sealed under one
   key, no number of any generation is delivered twice, whatever the window and the
   cache have forgotten.
   */
  lemma {:induction false} NumberDeliveredOnce(root: Root, isInitiator: bool, pair: KeyPair, peer: Option<PublicKey>, ops: seq<Op>)
    requires root.Master? && OneKeyPerNumber(Bodies(ops))
    ensures NumbersDiffer(Deliveries(Fresh(root, isInitiator, pair, peer), ops))
  {
    NeverDeliveredTwice(root, isInitiator, pair, peer, ops);
    DeliveriesArrived(Fresh(root, isInitiator, pair, peer), ops);
    KeysNumber(Deliveries(Fresh(root, isInitiator, pair, peer), ops), Bodies(ops));
  }
}
