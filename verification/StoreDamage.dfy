/**
 Files that are damaged on disk.  A store that no longer parses is replaced by its rotated
 predecessor; what a restore then gives back, when it gives back nothing, and what is
 left of the sessions persisted last.
 */
module StoreDamage {
  import opened Symbolic
  import opened Watermark
  import opened StoreSpec
  import opened StoreCrash

  // ----- One restore -----

  /** An entry that may be restored: it is there and does not regress a recorded mark. */
  predicate Offered(content: Snapshots, marks: Marks, p: Peer) {
    p in content && Passes(marks, p, content[p].mark)
  }

  function OfferedPeers(content: Snapshots, marks: Marks): set<Peer> {
    set p | p in content && Offered(content, marks, p)
  }

  /** The live session of the peer, if any, is of the same pairing and not ahead. */
  predicate Behind(live: Snapshots, p: Peer, snap: Snapshot) {
    p in live ==> live[p].mark.epoch == snap.mark.epoch && AtMost(live[p].mark, snap.mark)
  }

  /** What one restore from this map does: every entry offered replaces a session behind it, nothing else changes. */
  ghost predicate RestoredFrom(d: Disk, live: Snapshots, content: Snapshots) {
    var (live', restored) := Restore(d, live);
    && (forall p :: p in live' <==> p in live || Offered(content, Load(d.tiers), p))
    && (forall p :: p in live' ==>
          live'[p] == if Offered(content, Load(d.tiers), p) && Behind(live, p, content[p]) then content[p] else live[p])
    && restored == |OfferedPeers(content, Load(d.tiers))|
  }

  lemma RestoredExactly(d: Disk, live: Snapshots, content: Snapshots)
    requires ReadStore(d) == Some(content)
    ensures RestoredFrom(d, live, content)
  {
    var admitted := Admitted(content, Load(d.tiers));
    AdmittedExactly(content, Load(d.tiers));
    assert |admitted| == |admitted.Keys|;
    ImportedExactly(live, admitted);
  }

  lemma AdmittedExactly(content: Snapshots, marks: Marks)
    ensures Admitted(content, marks).Keys == OfferedPeers(content, marks)
    ensures forall p :: p in Admitted(content, marks) ==> Admitted(content, marks)[p] == content[p]
    ensures forall p :: p in Admitted(content, marks) <==> Offered(content, marks, p)
  {}

  /** The registry's guard, said in the order of marks. */
  lemma GuardExactly(live: Snapshots, p: Peer, snap: Snapshot)
    ensures Refuses(live, p, snap) <==> !Behind(live, p, snap)
  {}

  lemma ImportedExactly(live: Snapshots, snaps: Snapshots)
    ensures forall p :: p in Imported(live, snaps) <==> p in live || p in snaps
    ensures forall p :: p in Imported(live, snaps) ==>
              Imported(live, snaps)[p] == if p in snaps && Behind(live, p, snaps[p]) then snaps[p] else live[p]
  {
    forall p | p in snaps { GuardExactly(live, p, snaps[p]); }
  }

  /** A store that parses is what is restored; a damaged one is replaced by its predecessor. */
  lemma DamagedStoreFallsBack(d: Disk, live: Snapshots)
    ensures d.store.Whole? ==> RestoredFrom(d, live, d.store.snaps)
    ensures d.store.Torn? && d.bak.Whole? ==> RestoredFrom(d, live, d.bak.snaps)
  {
    if d.store.Whole? {
      RestoredExactly(d, live, d.store.snaps);
    } else if d.store.Torn? && d.bak.Whole? {
      RestoredExactly(d, live, d.bak.snaps);
    }
  }

  /**
   On every disk, damaged or not: a restart comes back without any session if and only if
   the store is missing, or neither it nor, where it is damaged, its predecessor holds an
   entry that passes the marks.
   */
  lemma EmptyRestartExactly(d: Disk)
    ensures Restore(d, map[]).0 == map[] <==>
            || d.store == Absent
            || (d.store.Whole? && forall p :: !Offered(d.store.snaps, Load(d.tiers), p))
            || (d.store.Torn? && (d.bak.Whole? ==> forall p :: !Offered(d.bak.snaps, Load(d.tiers), p)))
  {
    DamagedStoreFallsBack(d, map[]);
    var live' := Restore(d, map[]).0;
    assert live' == map[] <==> forall p :: p !in live';
  }

  // ----- Runs of persists and damage -----

  datatype Event = Interrupted(crash: Crash) | StoreDamaged | PredecessorDamaged

  function Damaged(f: File): File {
    if f == Absent then Absent else Torn
  }

  function Befall(d: Disk, e: Event): Disk {
    match e
    case Interrupted(c) => Survivor(d, c)
    case StoreDamaged => d.(store := Damaged(d.store))
    case PredecessorDamaged => d.(bak := Damaged(d.bak))
  }

  function BefallAll(d: Disk, events: seq<Event>): Disk
    decreases |events|
  {
    if events == [] then d else BefallAll(Befall(d, events[0]), events[1..])
  }

  /** What can be told of a file without reading it. */
  datatype Kind = Missing | Broken | Intact

  datatype Kinds = Kinds(store: Kind, bak: Kind)

  function KindOf(f: File): Kind {
    match f
    case Absent => Missing
    case Torn => Broken
    case Whole(_) => Intact
  }

  function KindsOf(d: Disk): Kinds {
    Kinds(KindOf(d.store), KindOf(d.bak))
  }

  function Spoilt(k: Kind): Kind {
    if k == Missing then Missing else Broken
  }

  /** The kinds after a persist interrupted at step k, from its calls. */
  function KindsAfter(ks: Kinds, c: Calls, k: nat): Kinds {
    if !WriteOk(c) || k < 3 then ks
    else
      var turned := if c.rotated && ks.store != Missing then Kinds(Missing, ks.store) else ks;
      if k < 4 then turned
      else if c.placed then turned.(store := Intact)
      else if c.fellBack && turned.bak != Missing then Kinds(turned.bak, Missing)
      else turned
  }

  function KindsBefall(ks: Kinds, e: Event): Kinds {
    match e
    case Interrupted(c) => KindsAfter(ks, c.persist.calls, StepOf(c))
    case StoreDamaged => ks.(store := Spoilt(ks.store))
    case PredecessorDamaged => ks.(bak := Spoilt(ks.bak))
  }

  function KindsBefallAll(ks: Kinds, events: seq<Event>): Kinds
    decreases |events|
  {
    if events == [] then ks else KindsBefallAll(KindsBefall(ks, events[0]), events[1..])
  }

  lemma KindsFollow(d: Disk, e: Event)
    ensures KindsOf(Befall(d, e)) == KindsBefall(KindsOf(d), e)
  {
    if e.Interrupted? {
      var p, k := e.crash.persist, StepOf(e.crash);
      FilesSettled(d, p, k);
      assert k == 3 ==> Trail(d, p)[3] == Rotate(Trail(d, p)[2], p.calls);
      assert WriteOk(p.calls) ==> Trail(d, p)[3].tmp == Whole(p.snaps);
    }
  }

  /**
   Whatever has befallen a disk, torn files included: the next restore finds nothing to
   read if and only if the calls and the damage alone say that the store is missing, or
   broken without an intact predecessor.
   */
  lemma {:induction false} NothingReadExactly(d: Disk, events: seq<Event>)
    ensures ReadStore(BefallAll(d, events)).None? <==>
            var ks := KindsBefallAll(KindsOf(d), events);
            ks.store == Missing || (ks.store == Broken && ks.bak != Intact)
    decreases |events|
  {
    if events != [] {
      KindsFollow(d, events[0]);
      NothingReadExactly(Befall(d, events[0]), events[1..]);
    }
  }

  // ----- What damage costs -----

  /** Both persists run to the end, the second rotates the first away, and their marks are durable. */
  predicate CompletesDurably(p: Persist) {
    WriteOk(p.calls) && p.calls.placed && Durable(p.calls.save)
  }

  lemma DurableMarks(d: Disk, p: Persist)
    requires CompletesDurably(p)
    ensures Load(Trail(d, p)[8].tiers) == MergeMaps(Load(d.tiers), MarksOf(p.snaps))
  {
    CompletePersistSaves(d, p);
    SavedThenLoaded(d.tiers, MarksOf(p.snaps), p.calls.save);
  }

  /**
   The store is damaged after two completed persists.  Of the sessions in the first one a
   restart brings back exactly those at or above the marks recorded before, and not
   below what the second persist recorded for them: a session that has moved between the
   two persists is refused as a rollback.
   */
  lemma DamageAfterTwoPersists(d: Disk, first: Persist, second: Persist, peer: Peer)
    requires CompletesDurably(first) && CompletesDurably(second) && second.calls.rotated && peer in first.snaps
    ensures var disk := Trail(Trail(d, first)[8], second)[8].(store := Torn);
            var live := Restore(disk, map[]).0;
            && (peer in live <==>
                  && Passes(Load(d.tiers), peer, first.snaps[peer].mark)
                  && (peer in second.snaps ==> AtMost(second.snaps[peer].mark, first.snaps[peer].mark)))
            && (peer in live ==> live[peer] == first.snaps[peer])
  {
    var d1 := Trail(d, first)[8];
    var d2 := Trail(d1, second)[8];
    CompletedPersistHeals(d, first);
    PredecessorKept(d1, second, first.snaps);
    DurableMarks(d, first);
    DurableMarks(d1, second);
    DamagedStoreFallsBack(d2.(store := Torn), map[]);
    MarksOfBoth(Load(d.tiers), first.snaps, second.snaps, peer);
  }

  lemma PredecessorKept(d: Disk, p: Persist, snaps: Snapshots)
    requires WriteOk(p.calls) && p.calls.placed && p.calls.rotated && ReadStore(d) == Some(snaps) && !d.store.Torn?
    ensures Trail(d, p)[8].bak == Whole(snaps)
  {
    FilesSettled(d, p, 8);
  }

  lemma MarksOfBoth(before: Marks, first: Snapshots, second: Snapshots, peer: Peer)
    requires peer in first
    ensures Passes(MergeMaps(MergeMaps(before, MarksOf(first)), MarksOf(second)), peer, first[peer].mark) <==>
            && Passes(before, peer, first[peer].mark)
            && (peer in second ==> AtMost(second[peer].mark, first[peer].mark))
  {
    var m := first[peer].mark;
    var m1 := if peer in before then Merge(before[peer], m) else m;
    if peer in before { MergeIsJoin(before[peer], m, m); }
    if peer in second { MergeIsJoin(m1, second[peer].mark, m); }
    MergeIsJoin(m, m1, m);
    assert MergeMaps(before, MarksOf(first))[peer] == m1;
  }
}
