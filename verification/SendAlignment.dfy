/**
 The sending side of a chain.  A send moves its counter before the steps that may
 fail, so every failed send leaves the chain one key further behind the numbers.
 Exactly when a send fails, what later sends seal under, and who still reads them.
 */
module SendAlignment {
  import opened Symbolic
  import opened RatchetSpec
  import opened Receiving
  import opened ChainRefinement

  /** The sending chain is f keys behind its counter. */
  predicate Behind(s: Session, seed: ChainKey, f: nat) {
    f <= s.send.count && s.send.key == Advance(seed, s.send.count - f)
  }

  /** An offer is due with this send, and its encapsulation fails; or the generations are used up. */
  predicate SendFails(s: Session, env: Env) {
    || s.generation == GEN_MAX
    || (&& s.queue == [] && Boundary(s, s.send.count) && s.outgoing.None? && s.incoming.slot.None?
        && s.peer.Some? && env.eph.None?)
  }

  lemma {:induction false} NoneDue(queue: seq<Carrier>, now: Clock)
    ensures FirstDue(queue, now).None? ==> FreshCarriers(queue, now) == queue
  {
    if queue != [] {
      NoneDue(queue[1..], now);
      assert queue == [queue[0]] + queue[1..];
    }
  }

  /** Message num of a generation, sealed under the key of the position f before its number. */
  ghost predicate SealedBehind(m: Message, seed: ChainKey, gen: nat, num: nat, f: nat, text: Plaintext) {
    && m.nonce == Nonce(gen, num) && f <= num
    && m.body.Sealed? && m.body == Sealed(MsgKey(Advance(seed, num - f)), m.nonce, m.body.aad, text)
    && m.fields == FieldsOf(m.body.aad)
  }

  /** A send fails exactly under that guard.  A failure adds one to the lag, a success seals under the lagging key. */
  lemma SendExactly(s: Session, seed: ChainKey, f: nat, text: Plaintext, env: Env)
    requires Behind(s, seed, f)
    ensures var (s', r) := Encrypt(s, text, env);
            && (r.Err? <==> SendFails(s, env))
            && (r.Err? ==> Behind(s', seed, f + 1))
            && (r.Ok? ==> Behind(s', seed, f) && SealedBehind(r.value, seed, s.generation, s.send.count, f, text))
            && s'.generation == s.generation && s'.send.count == s.send.count + 1
  {
    NoneDue(s.queue, env.now);
    assert FirstDue(s.queue, env.now).Some? ==> s.queue != [];
  }

  // ----- Runs of sends -----

  datatype Sending = Sending(text: Plaintext, env: Env)

  function AfterSends(s: Session, sends: seq<Sending>): Session
    decreases |sends|
  {
    if sends == [] then s
    else
      var last := sends[|sends| - 1];
      Encrypt(AfterSends(s, sends[..|sends| - 1]), last.text, last.env).0
  }

  /** The number of sends of the run whose guard fails. */
  function Failures(s: Session, sends: seq<Sending>): nat
    decreases |sends|
  {
    if sends == [] then 0
    else
      var before := sends[..|sends| - 1];
      Failures(s, before) + if SendFails(AfterSends(s, before), sends[|sends| - 1].env) then 1 else 0
  }

  lemma {:induction false} RunFallsBehind(s: Session, seed: ChainKey, sends: seq<Sending>)
    requires Behind(s, seed, 0)
    ensures var s' := AfterSends(s, sends);
            && Behind(s', seed, Failures(s, sends))
            && s'.generation == s.generation && s'.send.count == s.send.count + |sends|
    decreases |sends|
  {
    if sends != [] {
      var before, last := sends[..|sends| - 1], sends[|sends| - 1];
      RunFallsBehind(s, seed, before);
      SendExactly(AfterSends(s, before), seed, Failures(s, before), last.text, last.env);
    }
  }

  /** What the next send after a run returns. */
  function SentAfter(s: Session, before: seq<Sending>, next: Sending): Result<Message> {
    Encrypt(AfterSends(s, before), next.text, next.env).1
  }

  /** It takes the next number and is sealed under the key of its position less the failures before it. */
  lemma {:induction false} SendRunExactly(s: Session, seed: ChainKey, before: seq<Sending>, next: Sending)
    requires Behind(s, seed, 0)
    ensures NextIs(AfterSends(s, before), seed, s.generation, s.send.count + |before|, Failures(s, before), next)
  {
    RunFallsBehind(s, seed, before);
    NextSend(AfterSends(s, before), seed, s.generation, s.send.count + |before|, Failures(s, before), next);
  }

  ghost predicate NextIs(s: Session, seed: ChainKey, gen: nat, num: nat, f: nat, next: Sending) {
    var r := Encrypt(s, next.text, next.env).1;
    (r.Err? <==> SendFails(s, next.env)) && (r.Ok? ==> SealedBehind(r.value, seed, gen, num, f, next.text))
  }

  lemma {:induction false} NextSend(s: Session, seed: ChainKey, gen: nat, num: nat, f: nat, next: Sending)
    requires Behind(s, seed, f) && s.generation == gen && s.send.count == num
    ensures NextIs(s, seed, gen, num, f, next)
  {
    SendExactly(s, seed, f, next.text, next.env);
  }

  // ----- Who still reads them -----

  /** Sealed, plain or as a carrier, under the key of an earlier position than its number. */
  ghost predicate Lagging(w: Stream, m: Message, f: nat) {
    f > 0 && m.body.Sealed? && SealedBehind(m, w.seed, w.gen, m.nonce.num, f, m.body.text)
  }

  /** No aligned receiver ever accepts a lagging message, and trying leaves it aligned. */
  lemma LaggingRefused(w: Stream, r: Session, delivered: set<nat>, m: Message, f: nat, now: Clock)
    requires Aligned(w, r, delivered) && Lagging(w, m, f)
    ensures Dispatch(r, m, now).1.Err? && Aligned(w, Dispatch(r, m, now).0, delivered)
  {
    if BuildAad(m.fields).Err? {
      PartialFieldsRefused(r, m, now);
    } else {
      var aad := BuildAad(m.fields).value;
      DispatchUnified(r, m, aad, now);
      StagedSlotOnly(r, m.nonce, aad, now);
      var s := Staged(r, m.nonce, aad, now).0;
      SlotIrrelevant(w, r, s, delivered);
      LaggingOpensNowhere(w, s, delivered, m, f, aad);
    }
  }

  lemma LaggingOpensNowhere(w: Stream, r: Session, delivered: set<nat>, m: Message, f: nat, aad: Option<Payload>)
    requires Aligned(w, r, delivered) && Lagging(w, m, f)
    ensures AfterStaging(r, m.nonce, m.body, aad).1.Err? && AfterStaging(r, m.nonce, m.body, aad).0 == r
  {
    var num := m.nonce.num;
    AdvanceInjective(w.seed, num - f, num);
    AdvanceInjective(w.seed, num - f, r.recv.count);
    if num >= r.recv.count { AdvanceAdd(w.seed, r.recv.count, num - r.recv.count); }
    SeedPosAdvance(w.seed, num - f);
    if r.incoming.slot.Some? { SeedPosAdvance(r.incoming.slot.value.recv, num); }
  }

  lemma LagDecides(w: Stream, m: Message, num: nat, f: nat, text: Plaintext, r: Session, delivered: set<nat>, now: Clock)
    requires SealedBehind(m, w.seed, w.gen, num, f, text) && Aligned(w, r, delivered)
    requires w.texts(num) == text && w.offers(num) == m.body.aad
    ensures f == 0 ==> m == Sent(w, num) && (Dispatch(r, m, now).1.Ok? <==> Acceptable(w, r, num) && Stageable(w, r, num))
    ensures f > 0 ==> Dispatch(r, m, now).1.Err?
    ensures exists d :: Aligned(w, Dispatch(r, m, now).0, d)
  {
    if f == 0 {
      assert m == Sent(w, num);
      ArrivalExact(w, r, delivered, num, now);
    } else {
      LaggingRefused(w, r, delivered, m, f, now);
    }
  }

  /**
   The direction works exactly as long as no send has failed.  Before the first
   failure the next message is the message of its number, accepted whenever its key
   is at hand; from then on whatever is sent, plain or a carrier, is refused by every
   receiver aligned with the chain, now and after any number of refusals.
   */
  lemma DirectionWorksExactly(w: Stream, s: Session, before: seq<Sending>, next: Sending, m: Message,
                              r: Session, delivered: set<nat>, now: Clock)
    requires Behind(s, w.seed, 0) && s.generation == w.gen && Aligned(w, r, delivered)
    requires SentAfter(s, before, next) == Ok(m) && m.body.Sealed?
    requires w.texts(s.send.count + |before|) == next.text && w.offers(s.send.count + |before|) == m.body.aad
    ensures var num := s.send.count + |before|;
            && (Failures(s, before) == 0 ==>
                  m == Sent(w, num) && (Dispatch(r, m, now).1.Ok? <==> Acceptable(w, r, num) && Stageable(w, r, num)))
            && (Failures(s, before) > 0 ==> Dispatch(r, m, now).1.Err?)
            && exists d :: Aligned(w, Dispatch(r, m, now).0, d)
  {
    SendRunExactly(s, w.seed, before, next);
    LagDecides(w, m, s.send.count + |before|, Failures(s, before), next.text, r, delivered, now);
  }
}
