/**
 The double ratchet in the form the code base has it: an object whose methods
 update its fields step by step, with the key-derivation and eviction loops.  Every
 method is proved to do what the function of the same purpose in `RatchetSpec` says.
 */
module Ratchet {
  import opened Symbolic
  import opened RatchetSpec
  import opened SkipCache

  // ----- Derivation loops -----

  /** Skip from base to target, collecting the keys passed over; fails beyond max_skip. */
  method AdvanceReceivingChain(ck: ChainKey, base: nat, target: nat, gen: nat, maxSkip: nat)
    returns (r: Result<(ChainKey, SkipKeys)>)
    ensures r.Ok? <==> target <= base || target - base <= maxSkip
    ensures r.Err? ==> r.error == Desynchronized
    ensures r.Ok? && base <= target ==> r.value == (Next(Advance(ck, target - base)), SkipRange(ck, base, target, gen))
    ensures r.Ok? && base > target ==> r.value == (Next(ck), map[])
  {
    if target > base && target - base > maxSkip {
      return Err(Desynchronized);
    }
    var cur, skip: SkipKeys, i := ck, map[], base;
    while i < target
      invariant base <= i && (base <= target ==> i <= target) && (base > target ==> i == base)
      invariant cur == Advance(ck, i - base)
      invariant skip == SkipRange(ck, base, i, gen)
    {
      skip := skip[Nonce(gen, i) := MsgKey(cur)];
      cur := Next(cur);
      i := i + 1;
    }
    r := Ok((Next(cur), skip));
  }

  /** The message key at target, without collecting anything. */
  method DeriveTentativeMsgKey(ck: ChainKey, count: nat, target: nat, maxSkip: nat) returns (r: Result<MsgKey>)
    ensures r.Ok? <==> target <= count || target - count <= maxSkip
    ensures r.Ok? ==> r.value == MsgKey(Target(Chain(ck, count), target))
  {
    if target > count && target - count > maxSkip {
      return Err(Desynchronized);
    }
    var cur, i := ck, count;
    while i < target
      invariant count <= i && (count <= target ==> i <= target) && (count > target ==> i == count)
      invariant cur == Advance(ck, i - count)
    {
      cur := Next(cur);
      i := i + 1;
    }
    r := Ok(MsgKey(cur));
  }

  /** The skip loop of the receive path: the head it reaches and the keys it passes over. */
  method SkipTo(c: Chain, num: nat, gen: nat) returns (head: ChainKey, passed: SkipKeys)
    ensures head == Target(c, num) && passed == SkipRange(c.key, c.count, num, gen)
  {
    head, passed := c.key, map[];
    var i := c.count;
    while i < num
      invariant c.count <= i && (c.count <= num ==> i <= num) && (c.count > num ==> i == c.count)
      invariant head == Advance(c.key, i - c.count)
      invariant passed == SkipRange(c.key, c.count, i, gen)
    {
      passed := passed[Nonce(gen, i) := MsgKey(head)];
      head := Next(head);
      i := i + 1;
    }
  }

  /** The checks and the opening on a retained chain, before anything is committed. */
  method OpenOnPrevious(p: Previous, highest: Option<nat>, seen: set<Nonce>, n: Nonce, body: Cipher, aad: Option<Payload>, maxSkip: nat)
    returns (r: Result<(Plaintext, ChainKey, SkipKeys)>)
    ensures r == PreviousDecision(p, highest, seen, n, body, aad, maxSkip)
  {
    if n in seen {
      return Err(Replay);
    }
    if n.num < p.anchor {
      return Err(Desynchronized);
    }
    if highest.Some? && n.num <= highest.value {
      return Err(Replay);
    }
    var advanced := AdvanceReceivingChain(p.key, p.anchor, n.num, p.gen, maxSkip);
    if advanced.Err? {
      return Err(advanced.error);
    }
    var key := DeriveTentativeMsgKey(p.key, p.anchor, n.num, maxSkip);
    var text := Open(key.value, n, body, aad);
    if text.None? {
      return Err(AuthenticationFailed);
    }
    r := Ok((text.value, advanced.value.0, advanced.value.1));
  }

  // ----- Eviction loops -----

  lemma NewestIs(recent: SkipKeys, store: SkipKeys, budget: nat)
    requires store.Keys <= recent.Keys && (forall n :: n in store ==> store[n] == recent[n])
    requires forall k, e :: k in store && e in recent && e !in store ==> Newer(k, e)
    requires |store| <= budget && (store.Keys != recent.Keys ==> |store| == budget)
    ensures store == Newest(recent, budget)
  {
    forall n | n in recent ensures n in store <==> |NewerThan(recent.Keys, n)| < budget {
      if n in store {
        CardLe(NewerThan(recent.Keys, n), store.Keys - {n});
        assert |store.Keys - {n}| == |store| - 1;
      } else {
        CardLe(store.Keys, NewerThan(recent.Keys, n));
      }
    }
  }

  /** Drop other generations, then the oldest key while the cache is over budget. */
  method PruneSkipKeys(store: SkipKeys, gen: nat, budget: nat) returns (r: SkipKeys)
    ensures r == Prune(store, gen, budget)
  {
    r := map n | n in store && (n.gen == gen || (gen > 0 && n.gen == gen - 1)) :: store[n];
    ghost var recent := r;
    while |r| > budget
      invariant r.Keys <= recent.Keys && (forall n :: n in r ==> r[n] == recent[n])
      invariant forall k, e :: k in r && e in recent && e !in r ==> Newer(k, e)
      invariant r.Keys != recent.Keys ==> |r| >= budget
      decreases |r|
    {
      ghost var o := OldestOf(r.Keys);
      var oldest :| oldest in r.Keys && forall k :: k in r.Keys && k != oldest ==> Newer(k, oldest);
      var next := r - {oldest};
      assert next.Keys == r.Keys - {oldest} && |next| == |next.Keys| == |r.Keys| - 1;
      r := next;
    }
    NewestIs(recent, r, budget);
  }

  lemma CappedIs(full: set<Nonce>, cur: set<Nonce>, t: nat)
    requires cur == FromGeneration(full, t) && |cur| <= SEEN_SET_MAX
    requires forall k :: k in full && k.gen < t ==> |FromGeneration(full, k.gen)| > SEEN_SET_MAX
    ensures cur == Capped(full)
  {
    forall n | n in cur ensures |FromGeneration(full, n.gen)| <= SEEN_SET_MAX {
      CardLe(FromGeneration(full, n.gen), cur);
    }
  }

  /** Remember a delivery; over the cap, forget whole generations, oldest first. */
  method RecordDelivery(seen: set<Nonce>, n: Nonce) returns (r: set<Nonce>)
    ensures r == RecordDelivered(seen, n)
  {
    r := seen + {n};
    ghost var full: set<Nonce>, t: nat := r, 0;
    while |r| > SEEN_SET_MAX
      invariant r == FromGeneration(full, t)
      invariant forall k :: k in full && k.gen < t ==> |FromGeneration(full, k.gen)| > SEEN_SET_MAX
      decreases |r|
    {
      ghost var o := OldestOf(r);
      var oldest :| oldest in r && forall k :: k in r && k != oldest ==> Newer(k, oldest);
      forall k | k in r ensures k.gen >= oldest.gen {
        assert k != oldest ==> Newer(k, oldest);
      }
      SameFromGeneration(full, r, t, oldest.gen);
      var next := set k | k in r && k.gen != oldest.gen;
      CardLess(next, r, oldest);
      t := oldest.gen + 1;
      r := next;
    }
    CappedIs(full, r, t);
  }

  /** Keep the deliveries of this generation from the saturating lower bound on. */
  method SlideWindow(seen: set<Nonce>, gen: nat, count: nat, span: nat) returns (r: set<Nonce>)
    ensures r == Window(seen, gen, count, span)
  {
    var low := if count >= span then count - span else 0;
    r := set n | n in seen && n.gen == gen && n.num >= low;
  }

  lemma SameFromGeneration(full: set<Nonce>, cur: set<Nonce>, t: nat, g: nat)
    requires cur == FromGeneration(full, t) && t <= g && forall k :: k in cur ==> k.gen >= g
    ensures cur == FromGeneration(full, g)
  {}

  lemma CardLess(a: set<Nonce>, b: set<Nonce>, x: Nonce)
    requires a <= b && x in b && x !in a
    ensures |a| < |b|
  {
    CardLe(a, b - {x});
  }

  method HighestDelivered(seen: set<Nonce>, gen: nat) returns (r: Option<nat>)
    ensures r == HighestSeen(seen, gen)
  {
    r := None;
    var rest := seen;
    while rest != {}
      invariant rest <= seen
      invariant r.Some? ==> Nonce(gen, r.value) in seen
      invariant forall n :: n in seen - rest && n.gen == gen ==> r.Some? && n.num <= r.value
      decreases |rest|
    {
      var n :| n in rest;
      if n.gen == gen && (r.None? || n.num > r.value) { r := Some(n.num); }
      rest := rest - {n};
    }
    if r.Some? {
      assert IsHighest(seen, gen, r.value);
      assert forall h :: IsHighest(seen, gen, h) ==> h == r.value;
    } else {
      assert forall h :: !IsHighest(seen, gen, h);
    }
  }

  /** Split the queue into the carriers that stay and the first one due for a re-send. */
  method EvictDueCarriers(queue: seq<Carrier>, now: Clock) returns (kept: seq<Carrier>, due: Option<Carrier>)
    ensures kept == FreshCarriers(queue, now) && due == FirstDue(queue, now)
  {
    kept, due := [], None;
    for i := 0 to |queue|
      invariant kept + FreshCarriers(queue[i..], now) == FreshCarriers(queue, now)
      invariant (if due.Some? then due else FirstDue(queue[i..], now)) == FirstDue(queue, now)
    {
      assert queue[i..][1..] == queue[i + 1..];
      if RetryDue(queue[i], now) {
        if due.None? { due := Some(queue[i]); }
      } else {
        kept := kept + [queue[i]];
      }
    }
  }

  /** Keep the most recent key pairs. */
  method TrimHistory(pairs: seq<KeyPair>, bound: nat) returns (kept: seq<KeyPair>)
    ensures kept == Trim(pairs, bound)
  {
    kept := pairs;
    while |kept| > bound
      invariant kept == pairs || |kept| >= bound
      invariant |kept| <= |pairs| && kept == pairs[|pairs| - |kept|..]
    {
      kept := kept[1..];
    }
  }

  /** The current pair first, then the retained ones. */
  method DecapsulateWithRetained(ct: KemCiphertext, pairs: seq<KeyPair>) returns (ss: Option<Secret>)
    ensures ss == FirstDecapsulation(ct, pairs)
  {
    ss := None;
    var i := 0;
    while i < |pairs| && ss.None?
      invariant 0 <= i <= |pairs|
      invariant (if ss.Some? then ss else FirstDecapsulation(ct, pairs[i..])) == FirstDecapsulation(ct, pairs)
    {
      assert pairs[i..][1..] == pairs[i + 1..];
      ss := Decapsulate(ct, pairs[i]);
      i := i + 1;
    }
  }

  /** The replay watermark a commit freezes for the generation it leaves. */
  method CaptureWatermark(recv: Chain, seen: set<Nonce>, gen: nat) returns (mark: Option<nat>)
    ensures mark == DeliveredMark(recv, seen, gen)
  {
    mark := HighestDelivered(seen, gen);
    if recv.count > 0 { mark := MaxOption(mark, recv.count - 1); }
  }

  // ----- The session object -----

  class DoubleRatchetState {
    var root: Root
    var send: Chain
    var recv: Chain
    var pair: KeyPair
    var peer: Option<PublicKey>
    const interval: nat
    var generation: nat
    var previous: Option<Previous>
    var seen: set<Nonce>
    var prevHighest: Option<nat>
    var incoming: Incoming
    var outgoing: Option<Outgoing>
    var skip: SkipKeys
    const maxSkip: nat
    var history: seq<KeyPair>
    const maxHistory: nat
    var queue: seq<Carrier>
    var ackSeq: Option<nat>
    var resyncTotal: nat

    function View(): Session
      reads this
    {
      Session(root, send, recv, pair, peer, interval, generation, previous, seen, prevHighest,
              incoming, outgoing, skip, maxSkip, history, maxHistory, queue, ackSeq, resyncTotal)
    }

    constructor (root: Root, isInitiator: bool, pair: KeyPair, peer: Option<PublicKey>)
      ensures View() == Fresh(root, isInitiator, pair, peer)
    {
      this.root, this.pair, this.peer := root, pair, peer;
      if isInitiator {
        send, recv := Chain(InitiatorSend(root), 0), Chain(InitiatorRecv(root), 0);
      } else {
        send, recv := Chain(InitiatorRecv(root), 0), Chain(InitiatorSend(root), 0);
      }
      interval, generation := 100, 0;
      previous, seen, prevHighest := None, {}, None;
      incoming, outgoing := EMPTY_INCOMING, None;
      skip, maxSkip, history, maxHistory := map[], 100, [], 3;
      queue, ackSeq, resyncTotal := [], None, 0;
    }

    constructor Clone(of: DoubleRatchetState)
      ensures View() == of.View()
    {
      root, send, recv, pair, peer, interval := of.root, of.send, of.recv, of.pair, of.peer, of.interval;
      generation, previous, seen, prevHighest := of.generation, of.previous, of.seen, of.prevHighest;
      incoming, outgoing, skip, maxSkip := of.incoming, of.outgoing, of.skip, of.maxSkip;
      history, maxHistory, queue, ackSeq, resyncTotal := of.history, of.maxHistory, of.queue, of.ackSeq, of.resyncTotal;
    }

    /** Take over the state of a clone of this session. */
    method Replace(trial: Session)
      requires trial.interval == interval && trial.maxSkip == maxSkip && trial.maxHistory == maxHistory
      modifies this
      ensures View() == trial
    {
      ReplaceChains(trial);
      ReplaceSlots(trial);
    }

    method ReplaceChains(trial: Session)
      modifies `root, `send, `recv, `pair, `peer, `generation, `previous, `seen, `prevHighest
      ensures root == trial.root && send == trial.send && recv == trial.recv && pair == trial.pair && peer == trial.peer
      ensures generation == trial.generation && previous == trial.previous && seen == trial.seen && prevHighest == trial.prevHighest
    {
      root, send, recv, pair, peer := trial.root, trial.send, trial.recv, trial.pair, trial.peer;
      generation, previous, seen, prevHighest := trial.generation, trial.previous, trial.seen, trial.prevHighest;
    }

    method ReplaceSlots(trial: Session)
      modifies `incoming, `outgoing, `skip, `history, `queue, `ackSeq, `resyncTotal
      ensures incoming == trial.incoming && outgoing == trial.outgoing && skip == trial.skip && history == trial.history
      ensures queue == trial.queue && ackSeq == trial.ackSeq && resyncTotal == trial.resyncTotal
    {
      incoming, outgoing, skip, history := trial.incoming, trial.outgoing, trial.skip, trial.history;
      queue, ackSeq, resyncTotal := trial.queue, trial.ackSeq, trial.resyncTotal;
    }

    // --- commits and cancellations ---

    method CancelOutgoingRekey()
      modifies `outgoing, `queue
      ensures outgoing.None? && queue == []
    {
      outgoing := None;
      queue := [];
    }

    method CancelPendingIncomingRekey()
      modifies `incoming
      ensures incoming == ClearedIncoming(old(incoming))
    {
      incoming := incoming.(slot := None, carrierSeq := None, carrierGen := None, attachedUnix := None);
    }

    /** Retain the receiving chain, switch root and chains, bump the generation, reset the counters. */
    method AdoptChains(newRoot: Root, newSend: ChainKey, newRecv: ChainKey)
      modifies `previous, `prevHighest, `root, `send, `recv, `generation, `seen
      ensures View() == Adopt(old(View()), newRoot, newSend, newRecv)
    {
      ghost var s := View();
      var mark := CaptureWatermark(recv, seen, generation);
      assert mark == DeliveredMark(s.recv, s.seen, s.generation);
      previous, prevHighest, root, send, recv, generation, seen :=
        Some(Previous(recv.key, recv.count, generation)), mark,
        newRoot, Chain(newSend, 0), Chain(newRecv, 0), SaturatingInc(generation), {};
    }

    method CommitPendingRekey()
      requires incoming.slot.Some?
      modifies `previous, `prevHighest, `root, `send, `recv, `peer, `generation, `seen, `ackSeq, `incoming
      ensures View() == CommitIncoming(old(View()))
    {
      var p := incoming.slot.value;
      AdoptChains(p.root, p.send, p.recv);
      peer := Some(p.peer);
      ackSeq := if ackSeq.None? then incoming.carrierSeq else ackSeq;
      incoming := ClearedIncoming(incoming);
    }

    method CommitPendingRekeyWithRaceResolution()
      requires incoming.slot.Some?
      modifies `previous, `prevHighest, `root, `send, `recv, `peer, `generation, `seen, `ackSeq, `incoming, `outgoing, `queue
      ensures View() == CommitIncoming(if old(outgoing).Some? then CancelOutgoing(old(View())) else old(View()))
    {
      if outgoing.Some? { CancelOutgoingRekey(); }
      CommitPendingRekey();
    }

    method CommitOutgoingRekey()
      requires outgoing.Some?
      modifies `previous, `prevHighest, `root, `send, `recv, `pair, `history, `generation, `seen, `outgoing, `queue
      ensures View() == CommitOutgoing(old(View()))
    {
      var p := outgoing.value;
      AdoptChains(p.root, p.send, p.recv);
      history := TrimHistory(history + [pair], maxHistory);
      pair, outgoing, queue := p.pair, None, [];
    }

    method ProcessRekeyAck(at: nat) returns (matched: bool)
      modifies `previous, `prevHighest, `root, `send, `recv, `pair, `history, `generation, `seen, `outgoing, `queue
      ensures (View(), matched) == ProcessAck(old(View()), at)
    {
      var i := 0;
      while i < |queue| && queue[i].at != at
        invariant 0 <= i <= |queue|
        invariant forall j :: 0 <= j < i ==> queue[j].at != at
      {
        i := i + 1;
      }
      matched := i < |queue|;
      if matched {
        if outgoing.Some? {
          CommitOutgoingRekey();
        } else {
          queue := [];
        }
      }
    }

    method TakePendingRekeyAck() returns (at: Option<nat>)
      modifies `ackSeq, `incoming
      ensures (View(), at) == TakeAck(old(View()))
    {
      at := ackSeq;
      ackSeq := None;
      incoming := incoming.(carrierSeq := None);
    }

    // --- sending ---

    /** Queue and slot bookkeeping of one send: re-send, stage, or nothing. */
    method AttachRekey(num: nat, env: Env) returns (r: Result<Option<Payload>>)
      modifies `queue, `outgoing
      ensures (View(), r) == Attach(old(View()), num, env)
    {
      var kept, due := EvictDueCarriers(queue, env.now);
      var pending := outgoing.Some? || incoming.slot.Some?;
      var shouldRekey := num > 0 && interval > 0 && num % interval == 0 && kept == [] && !pending;
      if due.Some? {
        queue := kept + [due.value.(at := num, attached := env.now)];
        r := Ok(Some(due.value.payload));
      } else if shouldRekey && peer.Some? {
        if env.eph.None? {
          queue := kept;
          return Err(EncapsulationFailed);
        }
        var out := MakeOutgoing(root, peer.value, env.newPair, env.eph.value);
        outgoing := Some(out);
        queue := kept + [Carrier(num, env.now, env.now, out.payload)];
        r := Ok(Some(out.payload));
      } else {
        queue := kept;
        r := Ok(None);
      }
    }

    method RatchetEncrypt(text: Plaintext, env: Env) returns (r: Result<Message>)
      modifies `send, `queue, `outgoing
      ensures (View(), r) == Encrypt(old(View()), text, env)
    {
      var num := send.count;
      send := send.(count := num + 1);
      if generation == GEN_MAX {
        return Err(GenerationExhausted);
      }
      var nonce := Nonce(generation, num);
      var attached := AttachRekey(num, env);
      if attached.Err? {
        return Err(attached.error);
      }
      var key := MsgKey(send.key);
      send := send.(key := Next(send.key));
      r := Ok(Message(nonce, Sealed(key, nonce, attached.value, text), FieldsOf(attached.value)));
    }

    method DhRatchetRekey(peerPk: PublicKey, env: Env) returns (r: Result<KemCiphertext>)
      modifies `queue, `outgoing
      ensures (View(), r) == DhRekey(old(View()), peerPk, env)
    {
      if outgoing.Some? || incoming.slot.Some? {
        return Err(ProposalPending);
      }
      if env.eph.None? {
        return Err(EncapsulationFailed);
      }
      var out := MakeOutgoing(root, peerPk, env.newPair, env.eph.value);
      var offer := Payload(peerPk, out.payload.ct);
      outgoing := Some(out.(payload := offer));
      queue := queue + [Carrier(0, env.now, env.now, offer)];
      r := Ok(offer.ct);
    }

    // --- receiving ---

    /** Verify first, remove the key only afterwards. */
    method TryDecryptWithCachedKey(n: Nonce, body: Cipher, aad: Option<Payload>) returns (r: Result<Option<Plaintext>>)
      modifies `skip
      ensures n !in old(skip) ==> r == Ok(None) && skip == old(skip)
      ensures n in old(skip) ==>
                var text := Open(old(skip)[n], n, body, aad);
                && (text.None? ==> r == Err(AuthenticationFailed) && skip == old(skip))
                && (text.Some? ==> r == Ok(text) && skip == old(skip) - {n})
    {
      if n !in skip {
        return Ok(None);
      }
      var text := Open(skip[n], n, body, aad);
      if text.None? {
        return Err(AuthenticationFailed);
      }
      skip := skip - {n};
      r := Ok(text);
    }

    method TryDecryptWithChain(n: Nonce, body: Cipher, aad: Option<Payload>) returns (r: Result<Plaintext>)
      modifies `recv, `seen, `skip
      ensures (View(), r) == FromChain(old(View()), n, body, aad)
    {
      if n.num > recv.count && n.num - recv.count > maxSkip {
        return Err(Desynchronized);
      }
      var tentative, passed := SkipTo(recv, n.num, generation);
      var text := Open(MsgKey(tentative), n, body, aad);
      if text.None? {
        return Err(AuthenticationFailed);
      }
      var delivered := RecordDelivery(seen, Nonce(generation, n.num));
      var window := SlideWindow(delivered, generation, n.num + 1, 2 * maxSkip);
      var cache := PruneSkipKeys(skip + passed, generation, 2 * maxSkip);
      recv, seen, skip := Chain(Next(tentative), n.num + 1), window, cache;
      r := Ok(text.value);
    }

    /** The retained chain; the flag reports that the key came from the cache. */
    method TryDecryptPreviousGeneration(n: Nonce, body: Cipher, aad: Option<Payload>) returns (r: Result<(Plaintext, bool)>)
      requires previous.Some? && n.gen == previous.value.gen
      modifies `previous, `prevHighest, `skip, `seen
      ensures (View(), r) == FromPrevious(old(View()), n, body, aad)
    {
      var cached := TryDecryptWithCachedKey(n, body, aad);
      if cached.Err? {
        return Err(cached.error);
      }
      if cached.value.Some? {
        var delivered := RecordDelivery(seen, n);
        seen, prevHighest := delivered, MaxOption(prevHighest, n.num);
        return Ok((cached.value.value, true));
      }
      r := AdvancePreviousChain(n, body, aad);
    }

    method AdvancePreviousChain(n: Nonce, body: Cipher, aad: Option<Payload>) returns (r: Result<(Plaintext, bool)>)
      requires previous.Some? && n.gen == previous.value.gen && n !in skip
      modifies `previous, `prevHighest, `skip, `seen
      ensures r == FromPrevious(old(View()), n, body, aad).1
      ensures View() == FromPrevious(old(View()), n, body, aad).0
    {
      ghost var s := View();
      var p := previous.value;
      var result := OpenOnPrevious(p, prevHighest, seen, n, body, aad, maxSkip);
      assert result == PreviousDecision(s.previous.value, s.prevHighest, s.seen, n, body, aad, s.maxSkip);
      if result.Err? {
        return Err(result.error);
      }
      var (text, next, passed) := result.value;
      var cache := PruneSkipKeys(skip + passed, generation, 2 * maxSkip);
      var delivered := RecordDelivery(seen, n);
      previous, prevHighest, skip, seen :=
        Some(Previous(next, n.num + 1, p.gen)), MaxOption(prevHighest, n.num), cache, delivered;
      r := Ok((text, false));
    }

    /**
     The pending-chain fallback.  The chain advance after the commit is fallible in
     general; here it cannot fail, because the tentative derivation checked the same bound.
     */
    method TryDecryptWithPendingChain(n: Nonce, body: Cipher, aad: Option<Payload>) returns (text: Option<Plaintext>)
      modifies `previous, `prevHighest, `root, `send, `recv, `peer, `generation, `seen, `ackSeq, `incoming, `outgoing, `queue, `skip
      ensures text == PendingText(old(View()), n, body, aad)
      ensures View() == if text.Some? then CommitAt(old(View()), n.num) else old(View())
    {
      if incoming.slot.None? {
        return None;
      }
      var key := DeriveTentativeMsgKey(incoming.slot.value.recv, 0, n.num, maxSkip);
      if key.Err? {
        return None;
      }
      text := Open(key.value, n, body, aad);
      if text.None? {
        return;
      }
      CommitAndAdvance(n.num);
    }

    method CommitAndAdvance(num: nat)
      requires incoming.slot.Some? && num <= maxSkip
      modifies `previous, `prevHighest, `root, `send, `recv, `peer, `generation, `seen, `ackSeq, `incoming, `outgoing, `queue, `skip
      ensures View() == CommitAt(old(View()), num)
    {
      CommitPendingRekeyWithRaceResolution();
      var advanced := AdvanceReceivingChain(recv.key, 0, num, generation, maxSkip);
      assert advanced.Ok?;
      var cache := PruneSkipKeys(skip + advanced.value.1, generation, 2 * maxSkip);
      var delivered := RecordDelivery(seen, Nonce(generation, num));
      recv, skip, seen := Chain(advanced.value.0, num + 1), cache, delivered;
    }

    method RatchetDecrypt(n: Nonce, body: Cipher) returns (r: Result<Plaintext>)
      modifies this
      ensures (View(), r) == Decrypt(old(View()), n, body)
    {
      var valid := Validate(View(), n);
      if valid.Err? {
        return Err(valid.error);
      }
      if previous.Some? && n.gen == previous.value.gen {
        var p := TryDecryptPreviousGeneration(n, body, None);
        return if p.Err? then Err(p.error) else Ok(p.value.0);
      }
      var cached := TryDecryptWithCachedKey(n, body, None);
      if cached.Err? {
        return Err(cached.error);
      }
      if cached.value.Some? {
        seen := RecordDelivery(seen, n);
        return Ok(cached.value.value);
      }
      r := TryDecryptWithChain(n, body, None);
      if r.Err? {
        var text := TryDecryptWithPendingChain(n, body, None);
        if text.Some? { r := Ok(text.value); }
      }
    }

    /** Phase 1: derive the incoming proposal from a carrier's payload. */
    method StageIncoming(n: Nonce, offer: Payload, now: Clock) returns (r: Result<()>)
      modifies `incoming
      ensures (View(), r) == Stage(old(View()), n, offer, now)
    {
      if n.gen < generation || (incoming.carrierGen.Some? && n.gen < incoming.carrierGen.value) {
        return Ok(());
      }
      var ss := DecapsulateWithRetained(offer.ct, [pair] + history);
      if ss.None? {
        return Err(DecapsulationFailed);
      }
      var unix, mono := incoming.attachedUnix, incoming.attachedMono;
      if incoming.carrierGen.Some? && incoming.carrierGen.value < n.gen {
        unix, mono := None, None;
      }
      var p := Proposal(NextRoot(root, ss.value), RekeyRecv(root, ss.value), RekeySend(root, ss.value), offer.pk);
      incoming := Incoming(Some(p), Some(n.num), Some(n.gen), StampIfNone(unix, now.unix), StampIfNone(mono, now.mono));
      r := Ok(());
    }

    method ResolveRekeyRaceAndAck(num: nat, hasPayload: bool)
      modifies `outgoing, `queue, `incoming, `ackSeq
      ensures View() == ResolveRace(old(View()), num, hasPayload)
    {
      if !hasPayload {
        return;
      }
      if outgoing.Some? {
        var peerWins := incoming.slot.Some? && PkLess(outgoing.value.payload.pk, incoming.slot.value.peer);
        if peerWins {
          CancelOutgoingRekey();
        } else {
          CancelPendingIncomingRekey();
          return;
        }
      }
      ackSeq := Some(num);
    }

    method OpenStaged(n: Nonce, body: Cipher, aad: Option<Payload>) returns (r: Result<(Plaintext, Outcome)>)
      modifies this
      ensures (View(), r) == AfterStaging(old(View()), n, body, aad)
    {
      var cached := TryDecryptWithCachedKey(n, body, aad);
      if cached.Err? {
        return Err(cached.error);
      }
      if cached.value.Some? {
        seen := RecordDelivery(seen, n);
        ResolveRekeyRaceAndAck(n.num, aad.Some?);
        return Ok((cached.value.value, if aad.Some? then ProposalDerived else Skipped));
      }
      var result := TryDecryptWithChain(n, body, aad);
      if result.Ok? {
        ResolveRekeyRaceAndAck(n.num, aad.Some?);
        return Ok((result.value, if aad.Some? then ProposalDerived else RatchetSpec.Committed));
      }
      var text := TryDecryptWithPendingChain(n, body, aad);
      r := if text.Some? then Ok((text.value, RatchetSpec.Committed)) else Err(result.error);
    }

    method RatchetDecryptWithRekey(m: Message, now: Clock) returns (r: Result<(Plaintext, Outcome)>)
      modifies this
      ensures (View(), r) == DecryptRekey(old(View()), m, now)
    {
      var valid := Validate(View(), m.nonce);
      if valid.Err? {
        return Err(valid.error);
      }
      var aad := BuildAad(m.fields);
      if aad.Err? {
        return Err(aad.error);
      }
      if previous.Some? && m.nonce.gen == previous.value.gen {
        var p := TryDecryptPreviousGeneration(m.nonce, m.body, aad.value);
        return if p.Err? then Err(p.error) else Ok((p.value.0, if p.value.1 then Skipped else RatchetSpec.Committed));
      }
      if aad.value.Some? {
        var staged := StageIncoming(m.nonce, aad.value.value, now);
        if staged.Err? {
          return Err(staged.error);
        }
      }
      r := OpenStaged(m.nonce, m.body, aad.value);
    }

    // --- resynchronisation ---

    method ResyncReceivingChain(target: nat, now: Clock) returns (r: Result<nat>)
      modifies `incoming, `outgoing, `queue, `recv, `resyncTotal, `skip
      ensures (View(), r) == Resync(old(View()), target, now)
    {
      if incoming.slot.Some? {
        if !IncomingStale(incoming, now) {
          return Err(ProposalPending);
        }
        CancelPendingIncomingRekey();
      }
      if outgoing.Some? {
        if !OutgoingStale(queue, now) {
          return Err(ProposalPending);
        }
        CancelOutgoingRekey();
      }
      r := JumpForward(target);
    }

    method JumpForward(target: nat) returns (r: Result<nat>)
      modifies `recv, `resyncTotal, `skip
      ensures (View(), r) == Jump(old(View()), target)
    {
      var cur := recv.count;
      if target <= cur {
        return Err(StaleTarget);
      }
      if target - cur > SYNC_MAX_GAP {
        return Err(GapTooLarge);
      }
      if resyncTotal + (target - cur) > SYNC_MAX_CUMULATIVE {
        return Err(BudgetExhausted);
      }
      var head, passed := SkipTo(recv, target, generation);
      var cache := PruneSkipKeys(skip + passed, generation, 2 * maxSkip);
      recv, resyncTotal, skip := Chain(head, target), resyncTotal + (target - cur), cache;
      r := Ok(target - cur);
    }
  }
}
