/**
 Rollback watermarks.  A newer pairing epoch outranks an older one wholesale; within
 an epoch marks are ordered component by component.  Merging is the least upper bound
 of that order, both guards are stated against it, and the two storage tiers are read
 as one join.
 */
module Watermark {
  import opened Symbolic
  import RatchetSpec
  import Receiving

  datatype Mark = Mark(epoch: nat, gen: nat, send: nat, recv: nat)

  const ZERO := Mark(0, 0, 0, 0)

  /** The order everything below is stated in. */
  predicate AtMost(a: Mark, b: Mark) {
    a.epoch < b.epoch || (a.epoch == b.epoch && a.gen <= b.gen && a.send <= b.send && a.recv <= b.recv)
  }

  function Merge(high: Mark, late: Mark): Mark {
    if late.epoch > high.epoch then late
    else if late.epoch < high.epoch then high
    else Mark(high.epoch, RatchetSpec.Max(high.gen, late.gen), RatchetSpec.Max(high.send, late.send), RatchetSpec.Max(high.recv, late.recv))
  }

  predicate IsRollback(snap: Mark, high: Mark) {
    if snap.epoch < high.epoch then true
    else if snap.epoch > high.epoch then false
    else snap.gen < high.gen || snap.send < high.send || snap.recv < high.recv
  }

  predicate Advances(high: Mark, late: Mark) {
    if late.epoch > high.epoch then true
    else if late.epoch < high.epoch then false
    else late.gen > high.gen || late.send > high.send || late.recv > high.recv
  }

  predicate DominatesOrEquals(a: Mark, b: Mark) {
    a.epoch >= b.epoch && a.gen >= b.gen && a.send >= b.send && a.recv >= b.recv
  }

  /** The registry's guard against a live session. */
  predicate ImportRefused(snap: Mark, live: Option<Mark>) {
    live.Some? && (live.value.epoch != snap.epoch || !DominatesOrEquals(snap, live.value))
  }

  // ----- One mark -----

  /** Merging is the least upper bound, and the two comparisons are the two sides of the order. */
  lemma MergeIsJoin(a: Mark, b: Mark, c: Mark)
    ensures AtMost(Merge(a, b), c) <==> AtMost(a, c) && AtMost(b, c)
    ensures AtMost(a, b) && AtMost(b, a) ==> a == b
    ensures IsRollback(a, b) <==> !AtMost(b, a)
    ensures Advances(a, b) <==> !AtMost(b, a)
  {}

  /** The two guards give the same verdict exactly when the snapshot is not from a later pairing than the live session. */
  lemma GuardsAgreeExactly(snap: Mark, live: Mark)
    ensures (ImportRefused(snap, Some(live)) <==> IsRollback(snap, live)) <==> snap.epoch <= live.epoch
  {}

  function JoinAll(recorded: seq<Mark>): Mark {
    if recorded == [] then ZERO else Merge(JoinAll(recorded[..|recorded| - 1]), recorded[|recorded| - 1])
  }

  /** A snapshot is accepted against the accumulated mark exactly when it is at or above every mark recorded. */
  lemma {:induction false} AcceptedExactly(snap: Mark, recorded: seq<Mark>)
    ensures !IsRollback(snap, JoinAll(recorded)) <==> forall i :: 0 <= i < |recorded| ==> AtMost(recorded[i], snap)
  {
    if recorded != [] {
      var last := |recorded| - 1;
      AcceptedExactly(snap, recorded[..last]);
      MergeIsJoin(JoinAll(recorded[..last]), recorded[last], snap);
      assert forall i :: 0 <= i < last ==> recorded[..last][i] == recorded[i];
    }
  }

  /** The order in which marks are recorded does not matter. */
  lemma {:induction false} JoinIgnoresOrder(a: seq<Mark>, b: seq<Mark>)
    requires forall m :: m in a <==> m in b
    ensures JoinAll(a) == JoinAll(b)
  {
    forall c: Mark ensures AtMost(JoinAll(a), c) <==> AtMost(JoinAll(b), c) {
      AcceptedExactly(c, a);
      AcceptedExactly(c, b);
      assert forall i :: 0 <= i < |a| ==> a[i] in b;
      assert forall i :: 0 <= i < |b| ==> b[i] in a;
    }
    assert AtMost(JoinAll(a), JoinAll(b)) && AtMost(JoinAll(b), JoinAll(a));
  }

  /** The snapshot just written passes the next restore exactly when it is at or above the mark recorded before it. */
  lemma JustSavedAcceptedExactly(before: Mark, saved: Mark)
    ensures !IsRollback(saved, Merge(before, saved)) <==> AtMost(before, saved)
  {}

  function MarkOf(epoch: nat, s: RatchetSpec.Session): Mark {
    Mark(epoch, s.generation, s.send.count, s.recv.count)
  }

  /** Every send, failed or not, moves the sending component and no other. */
  lemma SendRaisesMark(epoch: nat, s: RatchetSpec.Session, text: Plaintext, env: RatchetSpec.Env)
    ensures var before, after := MarkOf(epoch, s), MarkOf(epoch, RatchetSpec.Encrypt(s, text, env).0);
            after == before.(send := before.send + 1) && Advances(before, after) && !IsRollback(after, before)
  {}

  /**
   A rekey commit resets both counters.  Once any message was counted before it, the
   snapshot written right after the commit is refused by the next restore.
   */
  lemma SnapshotAfterRekeyRefused(epoch: nat, s: RatchetSpec.Session)
    requires s.outgoing.Some? && s.generation < RatchetSpec.GEN_MAX
    ensures var saved := MarkOf(epoch, RatchetSpec.CommitOutgoing(s));
            && saved.gen == s.generation + 1
            && (IsRollback(saved, Merge(MarkOf(epoch, s), saved)) <==> s.send.count > 0 || s.recv.count > 0)
  {}

  /**
   The receiving side enters the new generation on message num, with its receive
   counter right behind it.  Its next snapshot is refused if and only if it had sent
   a message before, or had received more than the new counter shows.
   */
  lemma SnapshotAfterPeerRekeyRefused(epoch: nat, s: RatchetSpec.Session, num: nat)
    requires s.incoming.slot.Some? && s.generation < RatchetSpec.GEN_MAX
    ensures var saved := MarkOf(epoch, RatchetSpec.CommitAt(s, num));
            && saved.gen == s.generation + 1
            && (IsRollback(saved, Merge(MarkOf(epoch, s), saved)) <==> s.send.count > 0 || s.recv.count > num + 1)
  {
    Receiving.CommitShape(s, num);
  }

  // ----- Marks of all peers -----

  type Marks = map<Peer, Mark>

  function MergeMaps(a: Marks, b: Marks): Marks {
    map p | p in a.Keys + b.Keys :: if p in a && p in b then Merge(a[p], b[p]) else if p in a then a[p] else b[p]
  }

  predicate Below(a: Marks, b: Marks) {
    forall p :: p in a ==> p in b && AtMost(a[p], b[p])
  }

  lemma MapsJoin(a: Marks, b: Marks, c: Marks)
    ensures Below(MergeMaps(a, b), c) <==> Below(a, c) && Below(b, c)
  {
    forall p | p in a.Keys + b.Keys ensures p in MergeMaps(a, b) {}
    if Below(MergeMaps(a, b), c) {
      forall p | p in a ensures p in c && AtMost(a[p], c[p]) { assert p in MergeMaps(a, b); }
      forall p | p in b ensures p in c && AtMost(b[p], c[p]) { assert p in MergeMaps(a, b); }
    }
  }

  lemma BelowAntisymmetric(a: Marks, b: Marks)
    requires Below(a, b) && Below(b, a)
    ensures a == b
  {
    forall p | p in a ensures a[p] == b[p] {
      MergeIsJoin(a[p], b[p], a[p]);
    }
    assert a.Keys == b.Keys;
  }

  // ----- The two tiers -----

  /** The keyring entry and the sibling file; None is a tier that is missing or does not parse. */
  datatype Tiers = Tiers(keyring: Option<Marks>, file: Option<Marks>)

  function Contents(tier: Option<Marks>): Marks {
    if tier.Some? then tier.value else map[]
  }

  function Load(t: Tiers): Marks {
    MergeMaps(Contents(t.keyring), Contents(t.file))
  }

  /** How the file write of one save ends: complete, without effect, or cut short. */
  datatype FileWrite = Written | Untouched | CutShort

  datatype SaveOutcome = SaveOutcome(keyringOk: bool, file: FileWrite)

  predicate NothingAdvances(current: Marks, marks: Marks) {
    forall p :: p in marks ==> p in current && !Advances(current[p], marks[p])
  }

  function WriteKeyring(t: Tiers, marks: Marks, o: SaveOutcome): Tiers {
    if o.keyringOk then t.(keyring := Some(marks)) else t
  }

  function WriteFile(t: Tiers, marks: Marks, o: SaveOutcome): Tiers {
    match o.file
    case Written => t.(file := Some(marks))
    case Untouched => t
    case CutShort => t.(file := None)
  }

  function Save(t: Tiers, marks: Marks, o: SaveOutcome): Tiers {
    if marks == map[] || NothingAdvances(Load(t), marks) then t
    else WriteFile(WriteKeyring(t, marks, o), marks, o)
  }

  /** Both writes of a save failed, and the file, now lost, knew more than the keyring. */
  predicate LosesMarks(t: Tiers, marks: Marks, o: SaveOutcome) {
    && !NothingAdvances(Load(t), marks) && !o.keyringOk && o.file.CutShort?
    && !Below(Contents(t.file), Contents(t.keyring))
  }

  predicate Durable(o: SaveOutcome) {
    o.keyringOk || o.file.Written?
  }

  lemma LoadedCovers(t: Tiers)
    ensures Below(Contents(t.keyring), Load(t)) && Below(Contents(t.file), Load(t))
  {
    MapsJoin(Contents(t.keyring), Contents(t.file), Load(t));
  }

  lemma BelowTransitive(a: Marks, b: Marks, c: Marks)
    requires Below(a, b) && Below(b, c)
    ensures Below(a, c)
  {}

  /** The marks a reader sees never fall over a save, except exactly when both writes fail and the file was ahead. */
  lemma NeverFallsExactly(t: Tiers, late: Marks, o: SaveOutcome)
    ensures var marks := MergeMaps(Load(t), late);
            Below(Load(t), Load(Save(t, marks, o))) <==> !LosesMarks(t, marks, o)
  {
    var marks := MergeMaps(Load(t), late);
    var t' := Save(t, marks, o);
    LoadedCovers(t);
    LoadedCovers(t');
    MapsJoin(Load(t), late, marks);
    if t' != t {
      if Durable(o) {
        assert Below(marks, Load(t'));
        BelowTransitive(Load(t), marks, Load(t'));
      } else {
        MapsJoin(Contents(t.keyring), Contents(t.file), Load(t'));
        MapsJoin(Contents(t'.keyring), map[], Contents(t.keyring));
        if o.file.CutShort? && Below(Contents(t.file), Load(t')) {
          BelowTransitive(Contents(t.file), Load(t'), Contents(t.keyring));
        }
      }
    }
  }

  /** A durable save is read back as exactly what was saved. */
  lemma SavedThenLoaded(t: Tiers, late: Marks, o: SaveOutcome)
    requires Durable(o)
    ensures Load(Save(t, MergeMaps(Load(t), late), o)) == MergeMaps(Load(t), late)
  {
    var marks := MergeMaps(Load(t), late);
    var t' := Save(t, marks, o);
    LoadedCovers(t);
    MapsJoin(Load(t), late, marks);
    if marks != map[] && !NothingAdvances(Load(t), marks) {
      BelowTransitive(Contents(t.keyring), Load(t), marks);
      BelowTransitive(Contents(t.file), Load(t), marks);
      MapsJoin(Contents(t'.keyring), Contents(t'.file), marks);
      LoadedCovers(t');
      BelowAntisymmetric(Load(t'), marks);
    } else {
      BelowAntisymmetric(Load(t), marks);
    }
  }

  // ----- Runs of saves -----

  datatype Saving = Saving(late: Marks, outcome: SaveOutcome)

  function Saved(t: Tiers, s: Saving): Tiers {
    Save(t, MergeMaps(Load(t), s.late), s.outcome)
  }

  function RunSaves(t: Tiers, saves: seq<Saving>): Tiers
    decreases |saves|
  {
    if saves == [] then t else RunSaves(Saved(t, saves[0]), saves[1..])
  }

  /** The join of the starting marks with everything saved durably. */
  function Recorded(from: Marks, saves: seq<Saving>): Marks
    decreases |saves|
  {
    if saves == [] then from
    else Recorded(if Durable(saves[0].outcome) then MergeMaps(from, saves[0].late) else from, saves[1..])
  }

  /** No save of the run loses marks. */
  predicate Lossless(t: Tiers, saves: seq<Saving>)
    decreases |saves|
  {
    saves != [] ==>
      && !LosesMarks(t, MergeMaps(Load(t), saves[0].late), saves[0].outcome)
      && Lossless(Saved(t, saves[0]), saves[1..])
  }

  lemma UnsavedThenLoaded(t: Tiers, s: Saving)
    requires !Durable(s.outcome) && !LosesMarks(t, MergeMaps(Load(t), s.late), s.outcome)
    ensures Load(Saved(t, s)) == Load(t)
  {
    NeverFallsExactly(t, s.late, s.outcome);
    var t' := Saved(t, s);
    LoadedCovers(t);
    MapsJoin(Contents(t'.keyring), Contents(t'.file), Load(t));
    BelowAntisymmetric(Load(t), Load(t'));
  }

  /** Over every run that loses no marks, a reader sees exactly the join of all durable saves. */
  lemma {:induction false} RunLoadsJoin(t: Tiers, saves: seq<Saving>)
    requires Lossless(t, saves)
    ensures Load(RunSaves(t, saves)) == Recorded(Load(t), saves)
    decreases |saves|
  {
    if saves != [] {
      if Durable(saves[0].outcome) {
        SavedThenLoaded(t, saves[0].late, saves[0].outcome);
      } else {
        UnsavedThenLoaded(t, saves[0]);
      }
      RunLoadsJoin(Saved(t, saves[0]), saves[1..]);
    }
  }

  /** The restore guard for one peer: no recorded mark, or a snapshot that does not regress it. */
  predicate Passes(marks: Marks, peer: Peer, snap: Mark) {
    peer in marks ==> !IsRollback(snap, marks[peer])
  }

  /** After every run that loses no marks, restore accepts exactly the snapshots at or above every mark saved durably. */
  lemma RestoreAcceptsExactly(t: Tiers, saves: seq<Saving>, peer: Peer, snap: Mark)
    requires Lossless(t, saves)
    ensures Passes(Load(RunSaves(t, saves)), peer, snap) <==>
            && Passes(Load(t), peer, snap)
            && forall i :: 0 <= i < |saves| && Durable(saves[i].outcome) ==> Passes(saves[i].late, peer, snap)
  {
    RunLoadsJoin(t, saves);
    RecordedPasses(Load(t), saves, peer, snap);
  }

  lemma {:induction false} RecordedPasses(from: Marks, saves: seq<Saving>, peer: Peer, snap: Mark)
    ensures Passes(Recorded(from, saves), peer, snap) <==>
            && Passes(from, peer, snap)
            && forall i :: 0 <= i < |saves| && Durable(saves[i].outcome) ==> Passes(saves[i].late, peer, snap)
    decreases |saves|
  {
    if saves != [] {
      var rest := saves[1..];
      var from' := if Durable(saves[0].outcome) then MergeMaps(from, saves[0].late) else from;
      RecordedPasses(from', rest, peer, snap);
      assert Passes(MergeMaps(from, saves[0].late), peer, snap) <==> Passes(from, peer, snap) && Passes(saves[0].late, peer, snap);
      assert forall i :: 0 < i < |saves| ==> saves[i] == rest[i - 1];
      assert forall i :: 0 <= i < |rest| ==> rest[i] == saves[i + 1];
    }
  }
}
