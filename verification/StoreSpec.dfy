/**
 The snapshot store: a map of session snapshots on disk, its rotated predecessor, a
 temporary file and the watermark tiers.  A persist is a fixed sequence of file system
 calls, each of which may fail; a crash leaves the disk at any point of the sequence.
 */
module StoreSpec {
  import opened Symbolic
  import opened Watermark

  datatype Snapshot = Snapshot(mark: Mark, id: nat)

  type Snapshots = map<Peer, Snapshot>

  datatype File = Absent | Torn | Whole(snaps: Snapshots)

  datatype Disk = Disk(store: File, bak: File, tmp: File, tiers: Tiers)

  /** How the calls of one persist end. */
  datatype Calls = Calls(write: FileWrite, synced: bool, rotated: bool, placed: bool, fellBack: bool, save: SaveOutcome, removed: bool)

  /** One persist: the exported sessions and the outcome of every call. */
  datatype Persist = Persist(snaps: Snapshots, calls: Calls)

  function MarksOf(snaps: Snapshots): Marks {
    map p | p in snaps :: snaps[p].mark
  }

  predicate WriteOk(c: Calls) {
    c.write.Written? && c.synced
  }

  function StartWrite(d: Disk, c: Calls): Disk {
    if c.write.Untouched? then d else d.(tmp := Torn)
  }

  function EndWrite(d: Disk, snaps: Snapshots, c: Calls): Disk {
    if c.write.Written? then d.(tmp := Whole(snaps)) else d
  }

  function Rotate(d: Disk, c: Calls): Disk {
    if WriteOk(c) && d.store != Absent && c.rotated then d.(bak := d.store, store := Absent) else d
  }

  /** The rename over the store, or, when it fails, the rename of the predecessor back. */
  function Place(d: Disk, c: Calls): Disk {
    if !WriteOk(c) then d
    else if c.placed then d.(store := d.tmp, tmp := Absent)
    else if c.fellBack && d.bak != Absent then d.(store := d.bak, bak := Absent)
    else d
  }

  /** The marks are written only behind a placed store and only if one of them advances. */
  predicate Saves(d: Disk, marks: Marks, c: Calls) {
    WriteOk(c) && c.placed && marks != map[] && !NothingAdvances(Load(d.tiers), marks)
  }

  function ToKeyring(d: Disk, marks: Marks, c: Calls): Disk {
    d.(tiers := WriteKeyring(d.tiers, marks, c.save))
  }

  function StartFile(d: Disk, c: Calls): Disk {
    if c.save.file.Untouched? then d else d.(tiers := d.tiers.(file := None))
  }

  function EndFile(d: Disk, marks: Marks, c: Calls): Disk {
    if c.save.file.Written? then d.(tiers := d.tiers.(file := Some(marks))) else d
  }

  function RemoveTmp(d: Disk, c: Calls): Disk {
    if c.removed then d.(tmp := Absent) else d
  }

  /** The disk after each step from the rotation to the written marks; a step not taken repeats the state before it. */
  function Installed(d: Disk, marks: Marks, c: Calls): (trail: seq<Disk>)
    ensures |trail| == 5
  {
    var d0 := Rotate(d, c);
    var d1 := Place(d0, c);
    if !Saves(d1, marks, c) then [d0, d1, d1, d1, d1]
    else
      var d2 := ToKeyring(d1, marks, c);
      var d3 := StartFile(d2, c);
      [d0, d1, d2, d3, EndFile(d3, marks, c)]
  }

  /** The disk after each step of a persist. */
  function Trail(d: Disk, p: Persist): (trail: seq<Disk>)
    ensures |trail| == 9
  {
    var c := p.calls;
    var d1 := StartWrite(d, c);
    var d2 := EndWrite(d1, p.snaps, c);
    var installed := Installed(d2, MergeMaps(Load(d.tiers), MarksOf(p.snaps)), c);
    [d, d1, d2] + installed + [RemoveTmp(installed[4], c)]
  }

  // ----- Restore -----

  /** The map a restore works from. */
  function ReadStore(d: Disk): Option<Snapshots> {
    match d.store
    case Absent => None
    case Whole(snaps) => Some(snaps)
    case Torn => if d.bak.Whole? then Some(d.bak.snaps) else None
  }

  /** The entries that do not regress a recorded mark. */
  function Admitted(snaps: Snapshots, marks: Marks): Snapshots {
    map p | p in snaps && Passes(marks, p, snaps[p].mark) :: snaps[p]
  }

  predicate Refuses(live: Snapshots, p: Peer, snap: Snapshot) {
    ImportRefused(snap.mark, if p in live then Some(live[p].mark) else None)
  }

  /** Import every entry the registry's guard lets through. */
  function Imported(live: Snapshots, snaps: Snapshots): Snapshots {
    map p | p in live.Keys + snaps.Keys :: if p in snaps && !Refuses(live, p, snaps[p]) then snaps[p] else live[p]
  }

  /** The sessions after a restore, and the number it reports. */
  function Restore(d: Disk, live: Snapshots): (Snapshots, nat) {
    var content := ReadStore(d);
    if content.None? then (live, 0)
    else
      var admitted := Admitted(content.value, Load(d.tiers));
      (Imported(live, admitted), |admitted|)
  }
}
