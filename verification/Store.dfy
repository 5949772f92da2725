/**
 The snapshot store in the form the code base has it: files and a keyring cell changed
 one system call at a time.  The ghost field collects the disk after every call, so that
 a crash between any two of them leaves one of its members.
 */
module Store {
  import opened Symbolic
  import opened Watermark
  import opened StoreSpec

  method MergeTier(high: Marks, tier: Marks) returns (r: Marks)
    ensures r == MergeMaps(high, tier)
  {
    r := high;
    var rest := tier.Keys;
    while rest != {}
      invariant rest <= tier.Keys && r.Keys == high.Keys + (tier.Keys - rest)
      invariant forall p :: p in r && p !in rest ==> r[p] == MergeMaps(high, tier)[p]
      invariant forall p :: p in rest && p in r ==> p in high && r[p] == high[p]
    {
      var p :| p in rest;
      r := r[p := Merge(if p in r then r[p] else ZERO, tier[p])];
      rest := rest - {p};
    }
  }

  /** One import, behind the registry's guard. */
  method ImportOne(sessions: Snapshots, p: Peer, snap: Snapshot) returns (r: Snapshots)
    ensures r == if Refuses(sessions, p, snap) then sessions else sessions[p := snap]
  {
    r := sessions;
    if p in sessions {
      var live := sessions[p].mark;
      if live.epoch != snap.mark.epoch || !DominatesOrEquals(snap.mark, live) {
        return;
      }
    }
    r := sessions[p := snap];
  }

  /** The entries that have passed their mark so far: those of the given peers. */
  ghost function AdmittedOf(snaps: Snapshots, marks: Marks, peers: set<Peer>): Snapshots {
    map p | p in snaps && p in peers && Passes(marks, p, snaps[p].mark) :: snaps[p]
  }

  lemma AdmitStep(snaps: Snapshots, marks: Marks, peers: set<Peer>, p: Peer)
    requires p in snaps && p !in peers
    ensures var counted := AdmittedOf(snaps, marks, peers);
            && p !in counted
            && AdmittedOf(snaps, marks, peers + {p}) == if Passes(marks, p, snaps[p].mark) then counted[p := snaps[p]] else counted
  {}

  lemma ImportStep(live: Snapshots, counted: Snapshots, p: Peer, snap: Snapshot)
    requires p !in counted
    ensures var s := Imported(live, counted);
            Imported(live, counted[p := snap]) == if Refuses(s, p, snap) then s else s[p := snap]
  {
    assert Refuses(Imported(live, counted), p, snap) == Refuses(live, p, snap);
  }

  lemma ImportEnds(live: Snapshots, snaps: Snapshots, marks: Marks)
    ensures AdmittedOf(snaps, marks, {}) == map[] && Imported(live, map[]) == live
    ensures AdmittedOf(snaps, marks, snaps.Keys) == Admitted(snaps, marks)
  {}

  /** Import every entry that passes its mark; an import the registry refuses still counts. */
  method ImportAll(live: Snapshots, snaps: Snapshots, marks: Marks) returns (sessions: Snapshots, restored: nat)
    ensures sessions == Imported(live, Admitted(snaps, marks)) && restored == |Admitted(snaps, marks)|
  {
    ghost var peers: set<Peer> := {};
    sessions, restored := live, 0;
    var rest := snaps.Keys;
    ImportEnds(live, snaps, marks);
    while rest != {}
      invariant rest <= snaps.Keys && forall p :: p in peers <==> p in snaps && p !in rest
      invariant restored == |AdmittedOf(snaps, marks, peers)|
      invariant sessions == Imported(live, AdmittedOf(snaps, marks, peers))
    {
      var p :| p in rest;
      AdmitStep(snaps, marks, peers, p);
      if Passes(marks, p, snaps[p].mark) {
        ImportStep(live, AdmittedOf(snaps, marks, peers), p, snaps[p]);
        sessions := ImportOne(sessions, p, snaps[p]);
        restored := restored + 1;
      }
      rest, peers := rest - {p}, peers + {p};
    }
    assert peers == snaps.Keys;
  }

  class RatchetStore {
    var store: File
    var bak: File
    var tmp: File
    var keyring: Option<Marks>
    var file: Option<Marks>
    ghost var visited: set<Disk>

    function View(): Disk
      reads this
    {
      Disk(store, bak, tmp, Tiers(keyring, file))
    }

    method LoadWatermarks() returns (marks: Marks)
      ensures marks == Load(View().tiers)
    {
      marks := map[];
      if keyring.Some? { marks := MergeTier(marks, keyring.value); }
      if file.Some? { marks := MergeTier(marks, file.value); }
      assert MergeMaps(map[], Contents(keyring)) == Contents(keyring);
      assert MergeMaps(Contents(keyring), map[]) == Contents(keyring);
    }

    /** Truncate, then write. */
    method WriteWatermarkFile(marks: Marks, how: FileWrite)
      modifies `file, `visited
      ensures file == if how.Untouched? then old(file) else if how.Written? then Some(marks) else None
      ensures visited == old(visited) + if how.Untouched? then {} else
                {old(View()).(tiers := Tiers(keyring, None)), View()}
    {
      if how.Untouched? {
        return;
      }
      file := None;
      visited := visited + {View()};
      if how.Written? { file := Some(marks); }
      visited := visited + {View()};
    }

    method SaveWatermarks(marks: Marks, o: SaveOutcome)
      modifies `keyring, `file, `visited
      ensures View().tiers == Save(old(View()).tiers, marks, o)
      ensures marks == map[] || NothingAdvances(Load(old(View()).tiers), marks) ==> visited == old(visited)
      ensures visited <= old(visited) + {
                old(View()).(tiers := WriteKeyring(old(View()).tiers, marks, o)),
                old(View()).(tiers := WriteKeyring(old(View()).tiers, marks, o).(file := if o.file.Untouched? then old(file) else None)),
                View()}
    {
      if marks == map[] {
        return;
      }
      var current := LoadWatermarks();
      if forall p :: p in marks ==> p in current && !Advances(current[p], marks[p]) {
        return;
      }
      if o.keyringOk { keyring := Some(marks); }
      visited := visited + {View()};
      WriteWatermarkFile(marks, o.file);
    }

    method WriteTmp(snaps: Snapshots, how: FileWrite)
      modifies `tmp, `visited
      ensures tmp == if how.Untouched? then old(tmp) else if how.Written? then Whole(snaps) else Torn
      ensures visited == old(visited) + if how.Untouched? then {} else {old(View()).(tmp := Torn), View()}
    {
      if how.Untouched? {
        return;
      }
      tmp := Torn;
      visited := visited + {View()};
      if how.Written? { tmp := Whole(snaps); }
      visited := visited + {View()};
    }

    /** Rotate the good store away and rename the new one into place, or the old one back. */
    method SwapStore(c: Calls)
      requires WriteOk(c)
      modifies `store, `bak, `tmp, `visited
      ensures View() == Place(Rotate(old(View()), c), c)
      ensures visited == old(visited) + {Rotate(old(View()), c), View()}
    {
      if store != Absent && c.rotated {
        bak, store := store, Absent;
      }
      visited := visited + {View()};
      if c.placed {
        store, tmp := tmp, Absent;
      } else if c.fellBack && bak != Absent {
        store, bak := bak, Absent;
      }
      visited := visited + {View()};
    }

    /** Swap the stores and, only behind a placed store, advance the marks. */
    method SwapAndSave(marks: Marks, c: Calls)
      requires WriteOk(c)
      modifies this
      ensures View() == Installed(old(View()), marks, c)[4]
      ensures forall d :: d in visited ==> d in old(visited) || d in Installed(old(View()), marks, c)
    {
      ghost var t := Installed(View(), marks, c);
      SwapStore(c);
      assert View() == t[1] && visited <= old(visited) + {t[0], t[1]};
      if c.placed {
        SaveWatermarks(marks, c.save);
      }
      assert View() == t[4] && visited <= old(visited) + {t[0], t[1], t[2], t[3], t[4]};
    }

    /** Write aside, sync, swap the stores, and only behind a placed store advance the marks. */
    method PersistAll(p: Persist)
      modifies this
      ensures p.snaps == map[] ==> View() == old(View()) && visited == old(visited)
      ensures p.snaps != map[] ==> View() == Trail(old(View()), p)[8]
      ensures forall d :: d in visited ==> d in old(visited) || d in Trail(old(View()), p)
    {
      if p.snaps == map[] {
        return;
      }
      var c := p.calls;
      ghost var d1 := StartWrite(View(), c);
      ghost var d2 := EndWrite(d1, p.snaps, c);
      var loaded := LoadWatermarks();
      var marks := MergeTier(loaded, MarksOf(p.snaps));
      WriteTmp(p.snaps, c.write);
      assert View() == d2 && visited <= old(visited) + {d1, d2};
      if c.write.Written? && c.synced {
        SwapAndSave(marks, c);
      }
      if c.removed { tmp := Absent; }
      visited := visited + {View()};
    }

    method RestoreAll(live: Snapshots) returns (sessions: Snapshots, restored: nat)
      ensures (sessions, restored) == Restore(View(), live)
    {
      var snaps: Snapshots;
      match store {
        case Absent => return live, 0;
        case Whole(m) => snaps := m;
        case Torn =>
          if !bak.Whole? {
            return live, 0;
          }
          snaps := bak.snaps;
      }
      var marks := LoadWatermarks();
      sessions, restored := ImportAll(live, snaps, marks);
    }
  }
}
