/** Facts about receiving that hold whatever arrives: the two receive paths are one, and what a refusal leaves behind. */
module Receiving {
  import opened Symbolic
  import opened RatchetSpec

  /** Messages with rekey fields take the rekey-aware path. */
  ghost function Dispatch(s: Session, m: Message, now: Clock): (Session, Result<Plaintext>) {
    if m.fields == NO_FIELDS then Decrypt(s, m.nonce, m.body)
    else
      var (s', r) := DecryptRekey(s, m, now);
      (s', if r.Ok? then Ok(r.value.0) else Err(r.error))
  }

  /** The session a message is opened in, after Phase 1. */
  function Staged(s: Session, n: Nonce, aad: Option<Payload>, now: Clock): (Session, Result<()>) {
    if aad.Some? then Stage(s, n, aad.value, now) else (s, Ok(()))
  }

  /** Validate, previous generation, stage, open: one path for every message whose fields are complete or absent. */
  lemma DispatchUnified(s: Session, m: Message, aad: Option<Payload>, now: Clock)
    requires BuildAad(m.fields) == Ok(aad)
    ensures var (s', r) := Dispatch(s, m, now);
            if Validate(s, m.nonce).Err? then s' == s && r.Err?
            else if s.previous.Some? && m.nonce.gen == s.previous.value.gen then
              var (p, rp) := FromPrevious(s, m.nonce, m.body, aad);
              s' == p && (r.Ok? <==> rp.Ok?) && (r.Ok? ==> r.value == rp.value.0)
            else if Staged(s, m.nonce, aad, now).1.Err? then s' == Staged(s, m.nonce, aad, now).0 && r.Err?
            else
              var (p, rp) := AfterStaging(Staged(s, m.nonce, aad, now).0, m.nonce, m.body, aad);
              s' == p && (r.Ok? <==> rp.Ok?) && (r.Ok? ==> r.value == rp.value.0)
  {}

  /** The error of a refusal is that of the step that refused. */
  lemma RefusalError(s: Session, m: Message, aad: Option<Payload>, now: Clock)
    requires BuildAad(m.fields) == Ok(aad) && Dispatch(s, m, now).1.Err?
    ensures var e := Dispatch(s, m, now).1.error;
            if Validate(s, m.nonce).Err? then Validate(s, m.nonce) == Err(e)
            else if s.previous.Some? && m.nonce.gen == s.previous.value.gen then FromPrevious(s, m.nonce, m.body, aad).1 == Err(e)
            else if Staged(s, m.nonce, aad, now).1.Err? then Staged(s, m.nonce, aad, now).1 == Err(e)
            else AfterStaging(Staged(s, m.nonce, aad, now).0, m.nonce, m.body, aad).1 == Err(e)
  {}

  lemma PartialFieldsRefused(s: Session, m: Message, now: Clock)
    requires BuildAad(m.fields).Err?
    ensures Dispatch(s, m, now).1.Err? && Dispatch(s, m, now).0 == s
    ensures Validate(s, m.nonce).Ok? ==> Dispatch(s, m, now).1 == Err(PartialRekey)
  {}

  lemma FieldsOfAad(aad: Option<Payload>)
    ensures BuildAad(FieldsOf(aad)) == Ok(aad)
  {}

  /** Phase 1 touches the incoming slot only, and what it stages was derived under the current root. */
  lemma StagedSlotOnly(s: Session, n: Nonce, aad: Option<Payload>, now: Clock)
    ensures var (s', r) := Staged(s, n, aad, now);
            && s' == s.(incoming := s'.incoming)
            && (s'.incoming == s.incoming
                || (s'.incoming.slot.Some? && s'.incoming.slot.value.recv.RekeySend? && s'.incoming.slot.value.recv.root == s.root))
            && (r.Err? ==> s' == s)
            && (aad.Some? && aad.value.ct.Encapsulation? ==> r.Ok?)
            && (r.Err? <==> aad.Some? && !DropsCarrier(s, n) && aad.value.ct.Malformed?)
  {
    if aad.Some? { HistoryNeverConsulted(aad.value.ct, s.pair, s.history); }
  }

  /** The retained key pairs never decide anything: the current pair's answer is always the answer. */
  lemma HistoryNeverConsulted(ct: KemCiphertext, pair: KeyPair, history: seq<KeyPair>)
    ensures FirstDecapsulation(ct, [pair] + history) == Decapsulate(ct, pair)
  {
    if ct.Malformed? {
      AllFail(ct, [pair] + history);
    } else {
      assert ([pair] + history)[0] == pair;
    }
  }

  lemma {:induction false} AllFail(ct: KemCiphertext, pairs: seq<KeyPair>)
    requires ct.Malformed?
    ensures FirstDecapsulation(ct, pairs).None?
  {
    if pairs != [] { AllFail(ct, pairs[1..]); }
  }

  /** The state after committing the pending proposal on message num; an own offer is cancelled. */
  lemma CommitShape(s: Session, num: nat)
    requires s.incoming.slot.Some? && s.generation < GEN_MAX
    ensures var p, s', g := s.incoming.slot.value, CommitAt(s, num), s.generation + 1;
            && s'.generation == g && s'.root == p.root && s'.peer == Some(p.peer) && s'.send == Chain(p.send, 0)
            && s'.incoming.slot.None? && s'.incoming.carrierGen.None? && s'.outgoing.None?
            && s'.pair == s.pair && s'.maxSkip == s.maxSkip
            && s'.previous == Some(Previous(s.recv.key, s.recv.count, s.generation))
            && s'.recv == Chain(Advance(p.recv, num + 1), num + 1) && s'.seen <= {Nonce(g, num)}
            && s'.skip == Prune(s.skip + SkipRange(p.recv, 0, num, g), g, 2 * s.maxSkip)
  {}

  /** Not what it claims to be: no sealed body, or one sealed under another nonce or with other rekey fields. */
  predicate Misfit(m: Message) {
    m.body.Forged? || m.body.nonce != m.nonce || BuildAad(m.fields) != Ok(m.body.aad)
  }

  lemma MisfitOpensNowhere(s: Session, n: Nonce, body: Cipher, aad: Option<Payload>)
    requires body.Forged? || body.nonce != n || body.aad != aad
    ensures AfterStaging(s, n, body, aad).1.Err? && AfterStaging(s, n, body, aad).0 == s
    ensures s.previous.Some? && n.gen == s.previous.value.gen ==>
              FromPrevious(s, n, body, aad).1.Err? && FromPrevious(s, n, body, aad).0 == s
  {}

  /** It is refused, and what it leaves is what Phase 1 left. */
  lemma MisfitRefused(s: Session, m: Message, now: Clock)
    requires Misfit(m)
    ensures var (s', r) := Dispatch(s, m, now);
            && r.Err? && s' == s.(incoming := s'.incoming)
            && (s'.incoming == s.incoming
                || (s'.incoming.slot.Some? && s'.incoming.slot.value.recv.RekeySend? && s'.incoming.slot.value.recv.root == s.root))
  {
    if BuildAad(m.fields).Err? {
      PartialFieldsRefused(s, m, now);
    } else {
      var aad := BuildAad(m.fields).value;
      DispatchUnified(s, m, aad, now);
      StagedSlotOnly(s, m.nonce, aad, now);
      MisfitOpensNowhere(Staged(s, m.nonce, aad, now).0, m.nonce, m.body, aad);
      MisfitOpensNowhere(s, m.nonce, m.body, aad);
    }
  }

  /** Why it is refused, once it is current, unseen and its offer well-formed: beyond the window as out of reach, else as not authentic. */
  lemma MisfitError(s: Session, m: Message, aad: Option<Payload>, now: Clock)
    requires Misfit(m) && BuildAad(m.fields) == Ok(aad) && Validate(s, m.nonce).Ok?
    requires !(s.previous.Some? && m.nonce.gen == s.previous.value.gen) && (aad.Some? ==> aad.value.ct.Encapsulation?)
    ensures Dispatch(s, m, now).1 ==
            Err(if m.nonce !in s.skip && m.nonce.num > s.recv.count + s.maxSkip then Desynchronized else AuthenticationFailed)
  {
    MisfitRefused(s, m, now);
    RefusalError(s, m, aad, now);
    StagedSlotOnly(s, m.nonce, aad, now);
  }
}
