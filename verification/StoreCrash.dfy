/** What survives persists that are interrupted anywhere, and what the next restore makes of it. */
module StoreCrash {
  import opened Symbolic
  import opened Watermark
  import opened StoreSpec

  /** Neither the store nor its predecessor is torn. */
  predicate Sound(d: Disk) {
    !d.store.Torn? && !d.bak.Torn?
  }

  // ----- One persist, interrupted at step k -----

  lemma StepsKeepSound(d: Disk, p: Persist, k: nat)
    requires Sound(d) && k < 9
    ensures Sound(Trail(d, p)[k])
  {
    var t := Trail(d, p);
    assert WriteOk(p.calls) ==> t[2].tmp == t[3].tmp == Whole(p.snaps);
    assert Sound(t[3]) && Sound(t[4]);
    FilesSettled(d, p, k);
  }

  /** From the placing step on, the store and its predecessor no longer change. */
  lemma FilesSettled(d: Disk, p: Persist, k: nat)
    requires k < 9
    ensures k < 3 ==> Trail(d, p)[k].store == d.store && Trail(d, p)[k].bak == d.bak
    ensures k >= 4 ==> Trail(d, p)[k].store == Trail(d, p)[4].store && Trail(d, p)[k].bak == Trail(d, p)[4].bak
  {}

  /** What the write aside has left of the temporary file. */
  function Aside(d: Disk, p: Persist): File {
    match p.calls.write
    case Untouched => d.tmp
    case CutShort => Torn
    case Written => Whole(p.snaps)
  }

  /**
   The new map is written aside first: at every crash point before the renames the temporary
   file is old, torn or complete; the rename into place takes it away, and so does the
   clean-up.
   */
  lemma TemporaryExactly(d: Disk, p: Persist, k: nat)
    requires k < 9
    ensures Trail(d, p)[k].tmp ==
            if k == 0 then d.tmp
            else if k == 1 then (if p.calls.write.Untouched? then d.tmp else Torn)
            else if (k >= 4 && WriteOk(p.calls) && p.calls.placed) || (k == 8 && p.calls.removed) then Absent
            else Aside(d, p)
  {
    var t := Trail(d, p);
    assert t[2].tmp == Aside(d, p) && t[3].tmp == t[2].tmp;
    assert t[5].tmp == t[4].tmp && t[6].tmp == t[4].tmp && t[7].tmp == t[4].tmp;
  }

  /** The map the store stands for: the one in place, or, while the store path is missing, the rotated one. */
  function Current(d: Disk): Option<Snapshots> {
    if d.store.Whole? then Some(d.store.snaps)
    else if d.store == Absent && d.bak.Whole? then Some(d.bak.snaps)
    else None
  }

  /** Both renames fail and the fallback puts the predecessor, an older map, over the store. */
  predicate StaleFallback(d: Disk, p: Persist) {
    var c := p.calls;
    && WriteOk(c) && !c.rotated && !c.placed && c.fellBack
    && d.store.Whole? && d.bak.Whole? && d.bak != d.store
  }

  predicate Places(p: Persist, k: nat) {
    WriteOk(p.calls) && p.calls.placed && k >= 4
  }

  /**
   Whatever state the disk is in, the store path missing or not: at every crash point
   the store stands for the new map once it was placed and for the old one before,
   except exactly after a stale fallback.
   */
  lemma CurrentExactly(d: Disk, p: Persist, k: nat)
    requires Sound(d) && k < 9
    ensures Current(Trail(d, p)[k]) == (if Places(p, k) then Some(p.snaps) else Current(d)) <==> !(StaleFallback(d, p) && k >= 4)
    ensures Current(Trail(d, p)[k]).Some? <==> Current(d).Some? || Places(p, k)
  {
    FilesSettled(d, p, k);
    assert k == 3 ==> Trail(d, p)[3] == Rotate(Trail(d, p)[2], p.calls);
    var d4 := Trail(d, p)[4];
    assert WriteOk(p.calls) ==> Trail(d, p)[3].tmp == Whole(p.snaps);
    assert StaleFallback(d, p) ==> d4.store == d.bak && d4.bak == Absent;
  }

  /** Whether the store path is missing at step k, from whether it was, whether any map was kept, and the calls alone. */
  predicate MissingAfter(missing: bool, kept: bool, p: Persist, k: nat) {
    var c := p.calls;
    if !WriteOk(c) || k < 3 then missing
    else if k >= 4 && (c.placed || (c.fellBack && kept)) then false
    else missing || c.rotated
  }

  lemma MissingExactly(d: Disk, p: Persist, k: nat)
    requires Sound(d) && k < 9
    ensures Trail(d, p)[k].store == Absent <==> MissingAfter(d.store == Absent, Current(d).Some?, p, k)
  {
    FilesSettled(d, p, k);
    assert k == 3 ==> Trail(d, p)[3] == Rotate(Trail(d, p)[2], p.calls);
    assert WriteOk(p.calls) ==> Trail(d, p)[3].tmp == Whole(p.snaps);
  }

  /** The marks move only once the new map is in place. */
  lemma MarksBehindStore(d: Disk, p: Persist, k: nat)
    requires k < 9 && Trail(d, p)[k].tiers != d.tiers
    ensures Trail(d, p)[k].store == Whole(p.snaps)
  {
    FilesSettled(d, p, k);
    var t := Trail(d, p);
    assert t[4].tiers == d.tiers;
    assert t[2].tmp == t[3].tmp;
  }

  /** A persist that is not interrupted leaves the tiers as one save does. */
  lemma CompletePersistSaves(d: Disk, p: Persist)
    ensures Trail(d, p)[8].tiers ==
            if WriteOk(p.calls) && p.calls.placed then Saved(d.tiers, Saving(MarksOf(p.snaps), p.calls.save)) else d.tiers
  {}

  // ----- Any number of interrupted persists -----

  datatype Crash = Crash(persist: Persist, at: nat)

  function Survivor(d: Disk, c: Crash): Disk {
    Trail(d, c.persist)[StepOf(c)]
  }

  function RunCrashes(d: Disk, crashes: seq<Crash>): Disk
    decreases |crashes|
  {
    if crashes == [] then d else RunCrashes(Survivor(d, crashes[0]), crashes[1..])
  }

  function StepOf(c: Crash): nat {
    if c.at < 9 then c.at else 8
  }

  /** No persist of the run ends in a stale fallback. */
  predicate NoStaleFallback(d: Disk, crashes: seq<Crash>)
    decreases |crashes|
  {
    crashes != [] ==>
      && !(StaleFallback(d, crashes[0].persist) && StepOf(crashes[0]) >= 4)
      && NoStaleFallback(Survivor(d, crashes[0]), crashes[1..])
  }

  /** The map placed last over a run, or the one before it. */
  function LastPlaced(before: Option<Snapshots>, crashes: seq<Crash>): Option<Snapshots>
    decreases |crashes|
  {
    if crashes == [] then before
    else LastPlaced(if Places(crashes[0].persist, StepOf(crashes[0])) then Some(crashes[0].persist.snaps) else before, crashes[1..])
  }

  /** Over any number of persists interrupted anywhere, the store stands for exactly the map placed last. */
  lemma {:induction false} StoreKeepsLastPlaced(d: Disk, crashes: seq<Crash>)
    requires Sound(d) && NoStaleFallback(d, crashes)
    ensures Sound(RunCrashes(d, crashes)) && Current(RunCrashes(d, crashes)) == LastPlaced(Current(d), crashes)
    decreases |crashes|
  {
    if crashes != [] {
      var c := crashes[0];
      StepsKeepSound(d, c.persist, StepOf(c));
      CurrentExactly(d, c.persist, StepOf(c));
      StoreKeepsLastPlaced(Survivor(d, c), crashes[1..]);
    }
  }

  /** With stale fallbacks too, some complete map is left at the store or, while it is missing, at its predecessor. */
  lemma {:induction false} StoreSurvives(d: Disk, crashes: seq<Crash>)
    requires Sound(d) && Current(d).Some?
    ensures Sound(RunCrashes(d, crashes)) && Current(RunCrashes(d, crashes)).Some?
    decreases |crashes|
  {
    if crashes != [] {
      StepsKeepSound(d, crashes[0].persist, StepOf(crashes[0]));
      CurrentExactly(d, crashes[0].persist, StepOf(crashes[0]));
      StoreSurvives(Survivor(d, crashes[0]), crashes[1..]);
    }
  }

  /** Whether the store path is missing after a run, from the calls alone. */
  predicate MissingAfterRun(missing: bool, kept: bool, crashes: seq<Crash>)
    decreases |crashes|
  {
    if crashes == [] then missing
    else
      var p, k := crashes[0].persist, StepOf(crashes[0]);
      MissingAfterRun(MissingAfter(missing, kept, p, k), kept || Places(p, k), crashes[1..])
  }

  /**
   A restore after a run comes back empty-handed if and only if the calls say the
   store path is missing; otherwise it reads the map the store stands for.
   */
  lemma {:induction false} EmptyRestoreExactly(d: Disk, crashes: seq<Crash>)
    requires Sound(d)
    ensures var d' := RunCrashes(d, crashes);
            && (ReadStore(d').None? <==> MissingAfterRun(d.store == Absent, Current(d).Some?, crashes))
            && (ReadStore(d').Some? ==> ReadStore(d') == Current(d'))
    decreases |crashes|
  {
    if crashes != [] {
      var c := crashes[0];
      StepsKeepSound(d, c.persist, StepOf(c));
      CurrentExactly(d, c.persist, StepOf(c));
      MissingExactly(d, c.persist, StepOf(c));
      EmptyRestoreExactly(Survivor(d, c), crashes[1..]);
    }
  }

  /** So a restore after any such run reads nothing, or exactly the map placed last. */
  lemma RestoreReadsLastPlaced(d: Disk, crashes: seq<Crash>)
    requires Sound(d) && NoStaleFallback(d, crashes)
    ensures ReadStore(RunCrashes(d, crashes)) ==
            if MissingAfterRun(d.store == Absent, Current(d).Some?, crashes) then None else LastPlaced(Current(d), crashes)
  {
    StoreKeepsLastPlaced(d, crashes);
    EmptyRestoreExactly(d, crashes);
  }

  /** Every later completed persist brings the store path back. */
  lemma CompletedPersistHeals(d: Disk, p: Persist)
    requires WriteOk(p.calls) && p.calls.placed
    ensures ReadStore(Trail(d, p)[8]) == Some(p.snaps)
  {
    FilesSettled(d, p, 8);
    assert Trail(d, p)[3].tmp == Whole(p.snaps);
  }

  // ----- Restore -----

  /** A restore never moves a live session back, and imports nothing below a recorded mark. */
  lemma RestoreNeverRollsBack(d: Disk, live: Snapshots, p: Peer)
    ensures var live' := Restore(d, live).0;
            && (p in live ==> p in live' && AtMost(live[p].mark, live'[p].mark) && live'[p].mark.epoch == live[p].mark.epoch)
            && (p in live' && (p !in live || live'[p] != live[p]) ==> Passes(Load(d.tiers), p, live'[p].mark))
  {}

  /** After an uninterrupted persist and a restart, a session comes back exactly when its mark does not regress the marks recorded before. */
  lemma PersistThenRestoreExactly(d: Disk, p: Persist, peer: Peer)
    requires WriteOk(p.calls) && p.calls.placed && Durable(p.calls.save) && peer in p.snaps
    ensures var live := Restore(Trail(d, p)[8], map[]).0;
            && (peer in live <==> Passes(Load(d.tiers), peer, p.snaps[peer].mark))
            && (peer in live ==> live[peer] == p.snaps[peer])
  {
    CompletedPersistHeals(d, p);
    CompletePersistSaves(d, p);
    SavedThenLoaded(d.tiers, MarksOf(p.snaps), p.calls.save);
    RestoredEntry(Trail(d, p)[8], p.snaps, peer);
    OwnMarkPasses(Load(d.tiers), p.snaps, peer);
  }

  lemma RestoredEntry(d: Disk, snaps: Snapshots, peer: Peer)
    requires ReadStore(d) == Some(snaps) && peer in snaps
    ensures var live := Restore(d, map[]).0;
            && (peer in live <==> Passes(Load(d.tiers), peer, snaps[peer].mark))
            && (peer in live ==> live[peer] == snaps[peer])
  {}

  /** A snapshot passes the marks it has been merged into exactly if it passed those before. */
  lemma OwnMarkPasses(before: Marks, snaps: Snapshots, peer: Peer)
    requires peer in snaps
    ensures Passes(MergeMaps(before, MarksOf(snaps)), peer, snaps[peer].mark) <==> Passes(before, peer, snaps[peer].mark)
  {
    if peer in before { JustSavedAcceptedExactly(before[peer], snaps[peer].mark); }
    assert MarksOf(snaps)[peer] == snaps[peer].mark;
  }

  function Taken(live: Snapshots, admitted: Snapshots): set<Peer> {
    set p | p in admitted.Keys && !Refuses(live, p, admitted[p])
  }

  /** The number a restore reports also counts the entries the registry refuses. */
  lemma ReportedCountExactly(d: Disk, live: Snapshots)
    requires ReadStore(d).Some?
    ensures var admitted := Admitted(ReadStore(d).value, Load(d.tiers));
            Restore(d, live).1 == |Taken(live, admitted)| <==> forall p :: p in admitted ==> !Refuses(live, p, admitted[p])
  {
    var admitted := Admitted(ReadStore(d).value, Load(d.tiers));
    PartCounts(admitted.Keys, Taken(live, admitted));
    assert Restore(d, live).1 == |admitted.Keys|;
    assert Taken(live, admitted) == admitted.Keys <==> forall p :: p in admitted ==> p in Taken(live, admitted);
  }

  lemma PartCounts(all: set<Peer>, part: set<Peer>)
    requires part <= all
    ensures |all| == |part| <==> part == all
  {
    assert all == part + (all - part);
  }
}
