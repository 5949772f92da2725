/** In every run of a session nothing of a generation beyond the current one is remembered. */
module Generations {
  import opened Symbolic
  import opened RatchetSpec
  import opened RatchetRuns

  ghost predicate CacheBehind(skip: SkipKeys, seen: set<Nonce>, gen: nat) {
    && (forall n :: n in skip ==> n.gen <= gen)
    && (forall n :: n in seen ==> n.gen <= gen)
  }

  ghost predicate GenerationsOk(s: Session) {
    && s.generation <= GEN_MAX
    && (s.previous.Some? ==> s.previous.value.gen <= s.generation && (s.generation < GEN_MAX ==> s.previous.value.gen < s.generation))
    && CacheBehind(s.skip, s.seen, s.generation)
  }

  lemma {:induction false} SkipBehind(skip: SkipKeys, ck: ChainKey, base: nat, target: nat, of: nat, gen: nat, budget: nat)
    requires of <= gen && forall n :: n in skip ==> n.gen <= gen
    ensures forall n :: n in Prune(skip + SkipRange(ck, base, target, of), gen, budget) ==> n.gen <= gen
  {}

  lemma {:induction false} CacheOk(s: Session, n: Nonce, body: Cipher, aad: Option<Payload>)
    requires GenerationsOk(s) && n in s.skip
    ensures GenerationsOk(FromCache(s, n, body, aad).0)
  {}

  lemma {:induction false} PreviousOk(s: Session, n: Nonce, body: Cipher, aad: Option<Payload>)
    requires GenerationsOk(s) && s.previous.Some? && n.gen == s.previous.value.gen
    ensures GenerationsOk(FromPrevious(s, n, body, aad).0)
  {
    if n in s.skip { CacheOk(s, n, body, aad); }
    var p := s.previous.value;
    SkipBehind(s.skip, p.key, p.anchor, n.num, p.gen, s.generation, 2 * s.maxSkip);
  }

  lemma {:induction false} ChainOk(s: Session, n: Nonce, body: Cipher, aad: Option<Payload>)
    requires GenerationsOk(s)
    ensures GenerationsOk(FromChain(s, n, body, aad).0)
  {
    SkipBehind(s.skip, s.recv.key, s.recv.count, n.num, s.generation, s.generation, 2 * s.maxSkip);
  }

  lemma {:induction false} CommitOk(s: Session, num: nat)
    requires GenerationsOk(s) && s.incoming.slot.Some? && s.generation < GEN_MAX
    ensures GenerationsOk(CommitAt(s, num))
  {
    SkipBehind(s.skip, s.incoming.slot.value.recv, 0, num, s.generation + 1, s.generation + 1, 2 * s.maxSkip);
  }

  lemma {:induction false} AfterStagingOk(s: Session, n: Nonce, body: Cipher, aad: Option<Payload>)
    requires GenerationsOk(s) && s.generation < GEN_MAX
    ensures GenerationsOk(AfterStaging(s, n, body, aad).0)
  {
    if n in s.skip {
      CacheOk(s, n, body, aad);
      RaceOk(FromCache(s, n, body, aad).0, n.num, aad.Some?);
    } else if FromChain(s, n, body, aad).1.Ok? {
      ChainOk(s, n, body, aad);
      RaceOk(FromChain(s, n, body, aad).0, n.num, aad.Some?);
    } else if s.incoming.slot.Some? {
      CommitOk(s, n.num);
    }
  }

  lemma {:induction false} RaceOk(s: Session, num: nat, carries: bool)
    requires GenerationsOk(s)
    ensures GenerationsOk(ResolveRace(s, num, carries))
  {}

  lemma {:induction false} ReceiveOk(s: Session, n: Nonce, body: Cipher)
    requires GenerationsOk(s)
    ensures GenerationsOk(Decrypt(s, n, body).0)
  {
    if s.previous.Some? && n.gen == s.previous.value.gen {
      PreviousOk(s, n, body, None);
    } else if n in s.skip {
      CacheOk(s, n, body, None);
    } else if s.generation < GEN_MAX {
      ChainOk(s, n, body, None);
      if s.incoming.slot.Some? { CommitOk(s, n.num); }
    }
  }

  lemma {:induction false} ReceiveRekeyOk(s: Session, m: Message, now: Clock)
    requires GenerationsOk(s)
    ensures GenerationsOk(DecryptRekey(s, m, now).0)
  {
    var aad := BuildAad(m.fields);
    if aad.Ok? && s.generation < GEN_MAX {
      if s.previous.Some? && m.nonce.gen == s.previous.value.gen {
        PreviousOk(s, m.nonce, m.body, aad.value);
      } else {
        var s1 := if aad.value.Some? then Stage(s, m.nonce, aad.value.value, now).0 else s;
        AfterStagingOk(s1, m.nonce, m.body, aad.value);
      }
    }
  }

  lemma {:induction false} ResyncOk(s: Session, target: nat, now: Clock)
    requires GenerationsOk(s)
    ensures GenerationsOk(Resync(s, target, now).0)
  {
    SkipBehind(s.skip, s.recv.key, s.recv.count, target, s.generation, s.generation, 2 * s.maxSkip);
  }

  lemma {:induction false} OpKeepsGenerations(s: Session, op: Op)
    requires GenerationsOk(s)
    ensures GenerationsOk(Apply(s, op))
  {
    match op
    case Receive(n, body) => ReceiveOk(s, n, body);
    case ReceiveRekey(m, now) => ReceiveRekeyOk(s, m, now);
    case Resynchronise(target, now) => ResyncOk(s, target, now);
    case _ =>
  }

  /** From pairing on, in every run: the previous generation is older, and every cached or seen number is of a generation already entered. */
  lemma {:induction false} RunKeepsGenerations(s: Session, ops: seq<Op>)
    requires GenerationsOk(s)
    ensures GenerationsOk(RunFrom(s, ops))
    decreases |ops|
  {
    if ops != [] {
      OpKeepsGenerations(s, ops[0]);
      RunKeepsGenerations(Apply(s, ops[0]), ops[1..]);
    }
  }
}
