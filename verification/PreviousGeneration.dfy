/**
 Late messages of the generation before the current one.  A commit retains the old
 receiving chain; from then on a message of that generation is opened from the cache or
 on the retained chain.  Exactly which ones are accepted, and what over every run is
 delivered of the two streams together.
 */
module PreviousGeneration {
  import opened Symbolic
  import opened RatchetSpec
  import opened Receiving
  import opened SkipCache
  import opened ChainRefinement

  /** s is one generation beyond the stream w and still holds its chain; `delivered` are the numbers it has taken from it. */
  ghost predicate Retained(w: Stream, s: Session, delivered: set<nat>) {
    && s.generation == w.gen + 1 && s.generation < GEN_MAX
    && s.previous.Some? && s.previous.value.gen == w.gen
    && s.previous.value.key == Advance(w.seed, s.previous.value.anchor)
    && (forall i :: i in delivered ==> i < s.previous.value.anchor)
    && (forall n :: n in s.seen && n.gen == w.gen ==> n.num in delivered)
    && (forall n :: n in s.skip ==>
          n.gen <= s.generation &&
          (n.gen == w.gen ==> n.num < s.previous.value.anchor && n.num !in delivered && s.skip[n] == MsgKey(Advance(w.seed, n.num))))
  }

  /** The watermark sits right below the retained chain. */
  predicate MarkTight(s: Session) {
    s.previous.Some? && s.prevHighest == if s.previous.value.anchor == 0 then None else Some(s.previous.value.anchor - 1)
  }

  predicate AboveMark(s: Session, i: nat) {
    s.prevHighest.Some? ==> i > s.prevHighest.value
  }

  // ----- After a commit -----

  lemma MarkAtCommit(w: Stream, s: Session, delivered: set<nat>)
    requires Aligned(w, s, delivered)
    ensures DeliveredMark(s.recv, s.seen, s.generation) == if s.recv.count == 0 then None else Some(s.recv.count - 1)
  {}

  /** Leaving a generation on an own offer retains it where it stood. */
  lemma OwnCommitRetains(w: Stream, s: Session, delivered: set<nat>)
    requires Aligned(w, s, delivered) && w.gen + 1 < GEN_MAX && s.outgoing.Some?
    ensures Retained(w, CommitOutgoing(s), delivered) && MarkTight(CommitOutgoing(s))
  {
    MarkAtCommit(w, s, delivered);
  }

  /** So does leaving it on message num of the peer's new chain. */
  lemma PeerCommitRetains(w: Stream, s: Session, delivered: set<nat>, num: nat)
    requires Aligned(w, s, delivered) && w.gen + 1 < GEN_MAX && s.incoming.slot.Some?
    ensures Retained(w, CommitAt(s, num), delivered) && MarkTight(CommitAt(s, num))
  {
    MarkAtCommit(w, s, delivered);
    CommitShape(s, num);
    assert CommitAt(s, num).prevHighest == DeliveredMark(s.recv, s.seen, s.generation);
  }

  // ----- One late message -----

  /** The keys of the current generation in the cache: they are newer than every retained one. */
  function CurrentKeys(s: Session): set<Nonce> {
    set n | n in s.skip && n.gen == s.generation
  }

  /** The cache after the retained chain has passed over anchor..i. */
  function PassedOver(w: Stream, s: Session, i: nat): SkipKeys
    requires s.previous.Some?
  {
    var p := s.previous.value;
    Prune(s.skip + SkipRange(p.key, p.anchor, i, p.gen), s.generation, 2 * s.maxSkip)
  }

  lemma PassedOverRight(w: Stream, s: Session, delivered: set<nat>, i: nat)
    requires Retained(w, s, delivered) && i >= s.previous.value.anchor
    ensures forall n :: n in PassedOver(w, s, i) ==>
              n.gen <= s.generation && (n.gen == w.gen ==> n.num < i && n.num !in delivered && PassedOver(w, s, i)[n] == MsgKey(Advance(w.seed, n.num)))
  {
    RangeOnChain(w.seed, Chain(s.previous.value.key, s.previous.value.anchor), i, w.gen);
  }

  function Span(gen: nat, lo: nat, hi: nat): set<Nonce> {
    set k | lo <= k < hi :: Nonce(gen, k)
  }

  lemma {:induction false} SpanCount(gen: nat, lo: nat, hi: nat)
    requires lo <= hi
    ensures |Span(gen, lo, hi)| == hi - lo
    decreases hi - lo
  {
    if lo < hi {
      SpanCount(gen, lo, hi - 1);
      assert Span(gen, lo, hi) == Span(gen, lo, hi - 1) + {Nonce(gen, hi - 1)};
    }
  }

  /** In a cache that holds positions up to i of the previous generation, the newer keys are the current ones and the later positions. */
  lemma NewerKeys(recent: SkipKeys, current: set<Nonce>, gen: nat, j: nat, i: nat)
    requires forall n :: n in recent ==> n.gen <= gen + 1 && (n.gen == gen ==> n.num < i)
    requires forall n: Nonce :: n.gen == gen && j <= n.num < i ==> n in recent
    requires forall n :: n in current <==> n in recent && n.gen == gen + 1
    requires j < i
    ensures |NewerThan(recent.Keys, Nonce(gen, j))| == |current| + (i - 1 - j)
  {
    SpanCount(gen, j + 1, i);
    var span := Span(gen, j + 1, i);
    forall n ensures n in NewerThan(recent.Keys, Nonce(gen, j)) <==> n in current + span {
      assert n.gen == gen && j < n.num < i ==> n == Nonce(gen, n.num) && n in span;
    }
    assert NewerThan(recent.Keys, Nonce(gen, j)) == current + span;
    assert current !! span;
  }

  /** A position passed over is cached exactly if the budget, after the current generation and the newer positions, still covers it. */
  lemma PassedOverCached(w: Stream, s: Session, delivered: set<nat>, i: nat, j: nat)
    requires Retained(w, s, delivered) && s.previous.value.anchor <= j < i
    ensures Nonce(w.gen, j) in PassedOver(w, s, i) <==> |CurrentKeys(s)| + (i - 1 - j) < 2 * s.maxSkip
  {
    var p := s.previous.value;
    RangeOnChain(w.seed, Chain(p.key, p.anchor), i, w.gen);
    NewerKeys(RecentOnly(s.skip + SkipRange(p.key, p.anchor, i, p.gen), s.generation), CurrentKeys(s), w.gen, j, i);
  }

  /** The retained chain accepts message i exactly from where it stands, up to max_skip, above the watermark. */
  lemma DecisionExact(w: Stream, s: Session, delivered: set<nat>, i: nat)
    requires Retained(w, s, delivered) && Nonce(w.gen, i) !in s.seen
    ensures var p, n := s.previous.value, Nonce(w.gen, i);
            var d := PreviousDecision(p, s.prevHighest, s.seen, n, SealedAt(w, i), w.offers(i), s.maxSkip);
            && (d.Ok? <==> p.anchor <= i <= p.anchor + s.maxSkip && AboveMark(s, i))
            && (d.Ok? ==> d.value == (w.texts(i), Advance(w.seed, i + 1), SkipRange(p.key, p.anchor, i, p.gen)))
            && (d.Err? ==> d.error == if i >= p.anchor && !AboveMark(s, i) then Replay else Desynchronized)
  {
    var p := s.previous.value;
    if i >= p.anchor { AdvanceAdd(w.seed, p.anchor, i - p.anchor); }
  }

  /** Its key is cached, or the retained chain reaches it. */
  ghost predicate LateAcceptable(w: Stream, s: Session, i: nat)
    requires s.previous.Some?
  {
    var p := s.previous.value;
    Nonce(w.gen, i) in s.skip || (p.anchor <= i <= p.anchor + s.maxSkip && AboveMark(s, i))
  }

  /** A cached key opens its message and is gone; the retained chain stays. */
  lemma LateFromCache(w: Stream, s: Session, delivered: set<nat>, i: nat)
    requires Retained(w, s, delivered) && Nonce(w.gen, i) in s.skip
    ensures var (s', r) := FromPrevious(s, Nonce(w.gen, i), SealedAt(w, i), w.offers(i));
            && r == Ok((w.texts(i), true)) && Retained(w, s', delivered + {i})
            && s'.previous == s.previous && s'.skip == s.skip - {Nonce(w.gen, i)}
            && (MarkTight(s) ==> MarkTight(s'))
  {}

  /** The session after the retained chain has opened message i. */
  function SteppedPrevious(w: Stream, s: Session, i: nat): Session
    requires s.previous.Some?
  {
    s.(previous := Some(Previous(Advance(w.seed, i + 1), i + 1, w.gen)), prevHighest := MaxOption(s.prevHighest, i),
       skip := PassedOver(w, s, i), seen := RecordDelivered(s.seen, Nonce(w.gen, i)))
  }

  lemma SteppedRetained(w: Stream, s: Session, delivered: set<nat>, i: nat)
    requires Retained(w, s, delivered) && s.previous.value.anchor <= i
    ensures Retained(w, SteppedPrevious(w, s, i), delivered + {i}) && (MarkTight(s) ==> MarkTight(SteppedPrevious(w, s, i)))
  {
    PassedOverRight(w, s, delivered, i);
    assert forall n :: n in SteppedPrevious(w, s, i).seen ==> n in s.seen || n == Nonce(w.gen, i);
  }

  /** Otherwise the retained chain decides. */
  lemma LateFromChain(w: Stream, s: Session, delivered: set<nat>, i: nat)
    requires Retained(w, s, delivered) && Nonce(w.gen, i) !in s.skip && Nonce(w.gen, i) !in s.seen
    ensures var (s', r) := FromPrevious(s, Nonce(w.gen, i), SealedAt(w, i), w.offers(i));
            && (r.Ok? <==> LateAcceptable(w, s, i))
            && (r.Err? ==> s' == s && r.error == if i >= s.previous.value.anchor && !AboveMark(s, i) then Replay else Desynchronized)
            && (r.Ok? ==> r == Ok((w.texts(i), false)) && s' == SteppedPrevious(w, s, i))
  {
    DecisionExact(w, s, delivered, i);
  }

  /** The positions passed over are cached as far as the budget goes. */
  ghost predicate CachedWithinBudget(w: Stream, s: Session, s': Session, i: nat)
    requires s.previous.Some?
  {
    forall j :: s.previous.value.anchor <= j < i ==> (Nonce(w.gen, j) in s'.skip <==> |CurrentKeys(s)| + (i - 1 - j) < 2 * s.maxSkip)
  }

  lemma CachedOnTheWay(w: Stream, s: Session, delivered: set<nat>, s': Session, i: nat)
    requires Retained(w, s, delivered) && s'.skip == PassedOver(w, s, i)
    ensures CachedWithinBudget(w, s, s', i)
  {
    forall j | s.previous.value.anchor <= j < i
      ensures Nonce(w.gen, j) in PassedOver(w, s, i) <==> |CurrentKeys(s)| + (i - 1 - j) < 2 * s.maxSkip
    {
      PassedOverCached(w, s, delivered, i, j);
    }
  }

  /**
   Message i of the previous generation as sent, plain or a carrier: it is accepted,
   with its text, if and only if its key is cached, or the retained chain reaches it
   from where it stands and it is above the watermark.  The chain then sits right
   behind it, on the stream, and the positions passed over are cached as far as the
   budget goes.  A refusal changes nothing.
   */
  lemma LateExact(w: Stream, s: Session, delivered: set<nat>, i: nat, now: Clock)
    requires Retained(w, s, delivered)
    ensures var (s', r) := Dispatch(s, Sent(w, i), now);
            && (r.Ok? <==> LateAcceptable(w, s, i))
            && (r.Ok? ==> r.value == w.texts(i) && i !in delivered && Retained(w, s', delivered + {i}))
            && (r.Ok? && Nonce(w.gen, i) !in s.skip ==>
                  s'.previous == Some(Previous(Advance(w.seed, i + 1), i + 1, w.gen)) && CachedWithinBudget(w, s, s', i))
            && (r.Ok? && Nonce(w.gen, i) in s.skip ==> s'.previous == s.previous && s'.skip == s.skip - {Nonce(w.gen, i)})
            && (r.Ok? && MarkTight(s) ==> MarkTight(s'))
            && (r.Err? ==> s' == s)
  {
    var n, aad := Nonce(w.gen, i), w.offers(i);
    FieldsOfAad(aad);
    DispatchUnified(s, Sent(w, i), aad, now);
    if n in s.skip {
      LateFromCache(w, s, delivered, i);
    } else if n !in s.seen {
      LateFromChain(w, s, delivered, i);
      if LateAcceptable(w, s, i) {
        SteppedRetained(w, s, delivered, i);
        CachedOnTheWay(w, s, delivered, Dispatch(s, Sent(w, i), now).0, i);
      }
    }
  }

  /** Why it was refused: a remembered number or one below the watermark is a replay, anything else out of reach. */
  lemma LateError(w: Stream, s: Session, delivered: set<nat>, i: nat, now: Clock)
    requires Retained(w, s, delivered) && !LateAcceptable(w, s, i)
    ensures Dispatch(s, Sent(w, i), now).1 == Err(
              if Nonce(w.gen, i) in s.seen || (i >= s.previous.value.anchor && !AboveMark(s, i)) then Replay else Desynchronized)
  {
    LateExact(w, s, delivered, i, now);
    FieldsOfAad(w.offers(i));
    RefusalError(s, Sent(w, i), w.offers(i), now);
    if Nonce(w.gen, i) !in s.seen { LateFromChain(w, s, delivered, i); }
  }

  /** Right after a commit nothing at or above the old counter, up to max_skip, is refused; nor is anything that was cached. */
  lemma LateWindowAccepted(w: Stream, s: Session, delivered: set<nat>, i: nat, now: Clock)
    requires Retained(w, s, delivered) && MarkTight(s)
    ensures Dispatch(s, Sent(w, i), now).1 == Ok(w.texts(i))
       <==> Nonce(w.gen, i) in s.skip || s.previous.value.anchor <= i <= s.previous.value.anchor + s.maxSkip
  {
    LateExact(w, s, delivered, i, now);
  }

  // ----- Two streams together -----

  /** The receiver is aligned with the stream v of its generation and still holds the one before it. */
  ghost predicate Both(w: Stream, v: Stream, s: Session, late: set<nat>, delivered: set<nat>) {
    Retained(w, s, late) && MarkTight(s) && Aligned(v, s, delivered)
  }

  /** Every commit of an aligned session, on either side's offer, leaves it so. */
  lemma CommitHoldsBoth(w: Stream, v: Stream, s: Session, delivered: set<nat>, num: nat)
    requires Aligned(w, s, delivered) && BeforeCommit(s) && v.gen == w.gen + 1
    ensures s.outgoing.Some? && v.seed == s.outgoing.value.recv ==> Both(w, v, CommitOutgoing(s), delivered, {})
    ensures s.incoming.slot.Some? && v.seed == s.incoming.slot.value.recv && num <= s.maxSkip ==>
              Both(w, v, CommitAt(s, num), delivered, {num})
  {
    if s.outgoing.Some? && v.seed == s.outgoing.value.recv {
      OwnCommitRetains(w, s, delivered);
      OwnCommitAligned(v, s);
    }
    if s.incoming.slot.Some? && v.seed == s.incoming.slot.value.recv && num <= s.maxSkip {
      PeerCommitRetains(w, s, delivered, num);
      PeerCommitAligned(v, s, num);
    }
  }

  /** Opening a message of the current generation leaves the retained one alone. */
  lemma OpenKeepsRetained(w: Stream, s: Session, late: set<nat>, n: Nonce, body: Cipher, aad: Option<Payload>)
    requires Retained(w, s, late) && n.gen == s.generation && AfterStaging(s, n, body, aad).0.generation == s.generation
    ensures var s' := AfterStaging(s, n, body, aad).0;
            Retained(w, s', late) && s'.previous == s.previous && s'.prevHighest == s.prevHighest
  {
    if n in s.skip {
      CacheKeepsRetained(w, s, late, n, body, aad);
      RaceKeepsRetained(w, FromCache(s, n, body, aad).0, late, n.num, aad.Some?);
    } else if FromChain(s, n, body, aad).1.Ok? {
      ChainKeepsRetained(w, s, late, n, body, aad);
      RaceKeepsRetained(w, FromChain(s, n, body, aad).0, late, n.num, aad.Some?);
    }
  }

  lemma ChainKeepsRetained(w: Stream, s: Session, late: set<nat>, n: Nonce, body: Cipher, aad: Option<Payload>)
    requires Retained(w, s, late) && FromChain(s, n, body, aad).1.Ok?
    ensures var s' := FromChain(s, n, body, aad).0;
            Retained(w, s', late) && s'.previous == s.previous && s'.prevHighest == s.prevHighest
  {
    StepKeepsRetained(w, s, late, FromChain(s, n, body, aad).0, n.num);
  }

  lemma RaceKeepsRetained(w: Stream, s: Session, late: set<nat>, num: nat, carries: bool)
    requires Retained(w, s, late)
    ensures var s' := ResolveRace(s, num, carries);
            Retained(w, s', late) && s'.previous == s.previous && s'.prevHighest == s.prevHighest
  {}

  lemma CacheKeepsRetained(w: Stream, s: Session, late: set<nat>, n: Nonce, body: Cipher, aad: Option<Payload>)
    requires Retained(w, s, late) && n.gen == s.generation && n in s.skip
    ensures var s' := FromCache(s, n, body, aad).0;
            Retained(w, s', late) && s'.previous == s.previous && s'.prevHighest == s.prevHighest
  {}

  lemma StepKeepsRetained(w: Stream, s: Session, late: set<nat>, s': Session, num: nat)
    requires Retained(w, s, late) && s'.generation == s.generation && s'.previous == s.previous && s'.maxSkip == s.maxSkip
    requires forall n :: n in s'.seen ==> n in s.seen || n.gen == s.generation
    requires s'.skip == Prune(s.skip + SkipRange(s.recv.key, s.recv.count, num, s.generation), s.generation, 2 * s.maxSkip)
    ensures Retained(w, s', late)
  {}

  lemma CopyKeepsBoth(w: Stream, v: Stream, s: Session, late: set<nat>, delivered: set<nat>, i: nat, now: Clock)
    requires Both(w, v, s, late, delivered)
    ensures var (s', r) := Dispatch(s, Sent(v, i), now);
            && (r.Ok? ==> r.value == v.texts(i) && i !in delivered && Both(w, v, s', late, delivered + {i}))
            && (r.Err? ==> Both(w, v, s', late, delivered))
  {
    ArrivalExact(v, s, delivered, i, now);
    var n, aad := Nonce(v.gen, i), v.offers(i);
    FieldsOfAad(aad);
    DispatchUnified(s, Sent(v, i), aad, now);
    StagedSlotOnly(s, n, aad, now);
    if Dispatch(s, Sent(v, i), now).1.Ok? { OpenKeepsRetained(w, Staged(s, n, aad, now).0, late, n, SealedAt(v, i), aad); }
  }

  lemma MisfitKeepsBoth(w: Stream, v: Stream, s: Session, late: set<nat>, delivered: set<nat>, m: Message, now: Clock)
    requires Both(w, v, s, late, delivered) && Misfit(m)
    ensures Dispatch(s, m, now).1.Err? && Both(w, v, Dispatch(s, m, now).0, late, delivered)
  {
    MisfitFails(v, s, delivered, m, now);
  }

  lemma OwnStepsKeepBoth(w: Stream, v: Stream, s: Session, late: set<nat>, delivered: set<nat>, text: Plaintext, env: Env)
    requires Both(w, v, s, late, delivered)
    ensures Both(w, v, Encrypt(s, text, env).0, late, delivered) && Both(w, v, TakeAck(s).0, late, delivered)
  {
    OwnStepsKeepAligned(v, s, delivered, text, env);
    var s' := Encrypt(s, text, env).0;
    assert s' == s.(send := s'.send, outgoing := s'.outgoing, queue := s'.queue);
  }

  lemma LateKeepsBoth(w: Stream, v: Stream, s: Session, late: set<nat>, delivered: set<nat>, i: nat, now: Clock)
    requires Both(w, v, s, late, delivered)
    ensures var (s', r) := Dispatch(s, Sent(w, i), now);
            && (r.Ok? ==> r.value == w.texts(i) && i !in late && Both(w, v, s', late + {i}, delivered))
            && (r.Err? ==> Both(w, v, s', late, delivered))
  {
    LateExact(w, s, late, i, now);
    OlderKeepsAligned(v, s, delivered, Sent(w, i), now);
  }

  /** An arrival of the current stream, or one of the previous. */
  datatype Event = Event(late: bool, what: Arrival)

  predicate Proper(e: Event) {
    !e.what.Older? && (e.late ==> e.what.Copy? || e.what.Junk?)
  }

  /** A delivery and the stream it belongs to. */
  datatype Taken = Taken(late: bool, num: nat, text: Plaintext)

  ghost function Meet(w: Stream, v: Stream, s: Session, e: Event): (Session, seq<Taken>) {
    var (s', d) := Meets(if e.late then w else v, s, e.what);
    (s', if d.Some? then [Taken(e.late, d.value.num, d.value.text)] else [])
  }

  ghost function AllTaken(w: Stream, v: Stream, s: Session, events: seq<Event>): seq<Taken>
    decreases |events|
  {
    if events == [] then []
    else Meet(w, v, s, events[0]).1 + AllTaken(w, v, Meet(w, v, s, events[0]).0, events[1..])
  }

  ghost function AfterAll(w: Stream, v: Stream, s: Session, events: seq<Event>): Session
    decreases |events|
  {
    if events == [] then s else AfterAll(w, v, Meet(w, v, s, events[0]).0, events[1..])
  }

  /** Not delivered before, and with the text sent at that number of that stream. */
  predicate FirstAndRight(w: Stream, v: Stream, t: Taken, late: set<nat>, delivered: set<nat>) {
    t.num !in (if t.late then late else delivered) && t.text == (if t.late then w else v).texts(t.num)
  }

  predicate SameNumber(t: Taken, u: Taken) {
    t.late == u.late && t.num == u.num
  }

  ghost predicate EachOnce(w: Stream, v: Stream, taken: seq<Taken>, late: set<nat>, delivered: set<nat>) {
    && (forall k :: 0 <= k < |taken| ==> FirstAndRight(w, v, taken[k], late, delivered))
    && (forall j, k :: 0 <= j < k < |taken| ==> !SameNumber(taken[j], taken[k]))
  }

  lemma OneEvent(w: Stream, v: Stream, s: Session, late: set<nat>, delivered: set<nat>, e: Event)
    returns (late': set<nat>, delivered': set<nat>)
    requires Both(w, v, s, late, delivered) && Proper(e)
    ensures var (s', taken) := Meet(w, v, s, e);
            && Both(w, v, s', late', delivered') && late <= late' && delivered <= delivered'
            && |taken| <= 1 && EachOnce(w, v, taken, late, delivered)
            && (forall t :: t in taken ==> t.num in if t.late then late' else delivered')
  {
    var a, stream := e.what, if e.late then w else v;
    late', delivered' := late, delivered;
    match a
    case OwnSend(text, env) => OwnStepsKeepBoth(w, v, s, late, delivered, text, env);
    case HandOut => OwnStepsKeepBoth(w, v, s, late, delivered, Data(0), Env(Clock(0, 0), s.pair, None));
    case Junk(id, header, fields, now) => MisfitKeepsBoth(w, v, s, late, delivered, Arriving(stream, a), now);
    case Copy(i, header, fields, now) => late', delivered' := OneCopy(w, v, s, late, delivered, e);
  }

  lemma OneCopy(w: Stream, v: Stream, s: Session, late: set<nat>, delivered: set<nat>, e: Event)
    returns (late': set<nat>, delivered': set<nat>)
    requires Both(w, v, s, late, delivered) && e.what.Copy?
    ensures var (s', taken) := Meet(w, v, s, e);
            && Both(w, v, s', late', delivered') && late <= late' && delivered <= delivered'
            && |taken| <= 1 && EachOnce(w, v, taken, late, delivered)
            && (forall t :: t in taken ==> t.num in if t.late then late' else delivered')
  {
    var a, stream := e.what, if e.late then w else v;
    late', delivered' := late, delivered;
    OnlyFields(a.fields, stream.offers(a.i));
    if !Genuine(stream, a) {
      MisfitKeepsBoth(w, v, s, late, delivered, Arriving(stream, a), a.now);
    } else if e.late {
      LateKeepsBoth(w, v, s, late, delivered, a.i, a.now);
      if Dispatch(s, Sent(w, a.i), a.now).1.Ok? { late' := late + {a.i}; }
    } else {
      CopyKeepsBoth(w, v, s, late, delivered, a.i, a.now);
      if Dispatch(s, Sent(v, a.i), a.now).1.Ok? { delivered' := delivered + {a.i}; }
    }
  }

  lemma JoinTaken(w: Stream, v: Stream, first: seq<Taken>, rest: seq<Taken>,
                  late: set<nat>, delivered: set<nat>, late': set<nat>, delivered': set<nat>)
    requires |first| <= 1 && EachOnce(w, v, first, late, delivered) && EachOnce(w, v, rest, late', delivered')
    requires late <= late' && delivered <= delivered'
    requires forall t :: t in first ==> t.num in if t.late then late' else delivered'
    ensures EachOnce(w, v, first + rest, late, delivered)
  {
    var all := first + rest;
    assert forall k :: 0 <= k < |rest| ==> FirstAndRight(w, v, rest[k], late', delivered');
    forall j, k | 0 <= j < k < |all| ensures !SameNumber(all[j], all[k]) {
      assert all[k] == rest[k - |first|];
      assert j < |first| ==> all[j] in first;
    }
  }

  /**
   Over every run after a rekey, with messages of the old and the new generation, copies,
   relabellings and forgeries in any order: every delivery is the text sent at its number
   of its stream, no number of either stream is delivered twice, and the receiver stays
   where `LateExact` and `ArrivalExact` decide the next arrival.
   */
  lemma {:induction false} RunDeliversBoth(w: Stream, v: Stream, s: Session, late: set<nat>, delivered: set<nat>, events: seq<Event>)
    returns (late': set<nat>, delivered': set<nat>)
    requires Both(w, v, s, late, delivered) && forall k :: 0 <= k < |events| ==> Proper(events[k])
    ensures Both(w, v, AfterAll(w, v, s, events), late', delivered')
    ensures EachOnce(w, v, AllTaken(w, v, s, events), late, delivered)
    decreases |events|
  {
    late', delivered' := late, delivered;
    if events != [] {
      var (s1, first) := Meet(w, v, s, events[0]);
      var late1, delivered1 := OneEvent(w, v, s, late, delivered, events[0]);
      late', delivered' := RunDeliversBoth(w, v, s1, late1, delivered1, events[1..]);
      JoinTaken(w, v, first, AllTaken(w, v, s1, events[1..]), late, delivered, late1, delivered1);
    }
  }
}
