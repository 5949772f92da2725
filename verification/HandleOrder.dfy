/** The eviction order is the order of last use, over every sequence of calls. */
module HandleOrder {
  import opened Symbolic
  import opened HandleSpec
  import opened HandleTheorems

  /** The registry with the instant of every handle's last use: its creation or the last successful get. */
  datatype History = History(r: Registry, used: map<Handle, nat>, now: nat)

  /** The handle an operation uses. */
  function Uses(r: Registry, fp: Bytes -> nat, op: Op): Option<Handle> {
    match op
    case OpCreate(bytes) => if Create(r, bytes, fp(bytes)).1.Handed? then Some(r.next) else None
    case OpGet(h) => if h in r.keys then Some(h) else None
    case _ => None
  }

  function Happens(t: History, fp: Bytes -> nat, op: Op): History {
    var h := Uses(t.r, fp, op);
    History(Apply(t.r, fp, op), if h.Some? then t.used[h.value := t.now] else t.used, t.now + 1)
  }

  function HappensAll(t: History, fp: Bytes -> nat, ops: seq<Op>): History
    decreases |ops|
  {
    if ops == [] then t else HappensAll(Happens(t, fp, ops[0]), fp, ops[1..])
  }

  /** Listed in the order of last use. */
  ghost predicate ByLastUse(lru: seq<Handle>, used: map<Handle, nat>) {
    && (forall h :: h in lru ==> h in used)
    && (forall i, j :: 0 <= i < j < |lru| ==> used[lru[i]] < used[lru[j]])
  }

  ghost predicate Chronicle(t: History, fp: Bytes -> nat) {
    && Valid(t.r, fp) && ByLastUse(t.r.lru, t.used)
    && (forall h :: h in t.used ==> t.used[h] < t.now && h < t.r.next)
  }

  lemma {:induction false} WithoutByUse(lru: seq<Handle>, used: map<Handle, nat>, h: Handle)
    requires ByLastUse(lru, used)
    ensures ByLastUse(Without(lru, h), used) && (forall g :: g in Without(lru, h) ==> g in lru)
  {
    if lru != [] {
      FirstOldest(lru, used);
      if lru[0] != h {
        WithoutByUse(lru[1..], used, h);
        PrependByUse(lru[0], Without(lru[1..], h), used);
      }
    }
  }

  lemma FirstOldest(lru: seq<Handle>, used: map<Handle, nat>)
    requires ByLastUse(lru, used) && lru != []
    ensures ByLastUse(lru[1..], used) && forall g :: g in lru[1..] ==> g in lru && used[lru[0]] < used[g]
  {
    assert forall j :: 0 <= j < |lru| - 1 ==> lru[1..][j] == lru[j + 1];
  }

  lemma PrependByUse(h: Handle, lru: seq<Handle>, used: map<Handle, nat>)
    requires ByLastUse(lru, used) && h in used && forall g :: g in lru ==> used[h] < used[g]
    ensures ByLastUse([h] + lru, used)
  {
    assert forall i :: 0 <= i < |lru| ==> lru[i] in lru;
  }

  /** The handle used now goes to the end of the order. */
  lemma UsedNow(lru: seq<Handle>, used: map<Handle, nat>, h: Handle, now: nat)
    requires ByLastUse(lru, used) && h !in lru && forall g :: g in lru ==> used[g] < now
    ensures ByLastUse(lru + [h], used[h := now])
  {
    assert forall i :: 0 <= i < |lru| ==> lru[i] in lru;
  }

  lemma UnlistedUse(lru: seq<Handle>, used: map<Handle, nat>, h: Handle, now: nat)
    requires ByLastUse(lru, used) && h !in lru
    ensures ByLastUse(lru, used[h := now])
  {
    assert forall i :: 0 <= i < |lru| ==> lru[i] in lru;
  }

  lemma TailByUse(lru: seq<Handle>, used: map<Handle, nat>, from: nat)
    requires ByLastUse(lru, used) && from <= |lru|
    ensures ByLastUse(lru[from..], used)
  {
    assert forall j :: 0 <= j < |lru| - from ==> lru[from..][j] == lru[from + j];
  }

  lemma GetByUse(t: History, fp: Bytes -> nat, h: Handle)
    requires Chronicle(t, fp)
    ensures Chronicle(Happens(t, fp, OpGet(h)), fp)
  {
    GetKeeps(t.r, fp, h);
    if h in t.r.keys {
      WithoutOnce(t.r.lru, h);
      WithoutByUse(t.r.lru, t.used, h);
      if h in t.r.lru {
        UsedNow(Without(t.r.lru, h), t.used, h, t.now);
      } else {
        UnlistedUse(t.r.lru, t.used, h, t.now);
      }
    }
  }

  lemma CreateByUse(t: History, fp: Bytes -> nat, bytes: Bytes)
    requires Chronicle(t, fp)
    ensures Chronicle(Happens(t, fp, OpCreate(bytes)), fp)
  {
    CreateKeeps(t.r, fp, bytes);
    CreatedLast(t.r, bytes, fp(bytes));
    var (r', c) := Create(t.r, bytes, fp(bytes));
    if c.Handed? || c.AlreadyHeld? {
      RoomByUse(t.r, t.used);
      ChronicleGrows(t, fp, MakeRoom(t.r).lru, r', c.Handed?);
    }
  }

  lemma ChronicleGrows(t: History, fp: Bytes -> nat, room: seq<Handle>, r': Registry, handed: bool)
    requires Chronicle(t, fp) && ByLastUse(room, t.used) && Valid(r', fp)
    requires r'.lru == (if handed then room + [t.r.next] else room) && r'.next == if handed then t.r.next + 1 else t.r.next
    ensures Chronicle(History(r', if handed then t.used[t.r.next := t.now] else t.used, t.now + 1), fp)
  {
    CreatedByUse(t, room, r'.lru, handed);
  }

  lemma CreatedByUse(t: History, room: seq<Handle>, lru: seq<Handle>, handed: bool)
    requires ByLastUse(room, t.used) && forall h :: h in t.used ==> t.used[h] < t.now && h < t.r.next
    requires lru == if handed then room + [t.r.next] else room
    ensures ByLastUse(lru, if handed then t.used[t.r.next := t.now] else t.used)
  {
    if handed { UsedNow(room, t.used, t.r.next, t.now); }
  }

  /** A creation leaves the order alone, makes room in it, or also adds the new handle at the end. */
  lemma CreatedLast(r: Registry, bytes: Bytes, fingerprint: nat)
    ensures var (r', c) := Create(r, bytes, fingerprint);
            && (c.BadLength? || c.AllPinned? ==> r' == r)
            && (c.AlreadyHeld? ==> r'.lru == MakeRoom(r).lru && r'.next == r.next)
            && (c.Handed? ==> r'.lru == MakeRoom(r).lru + [r.next] && r'.next == r.next + 1)
            && (c.AlreadyHeld? || c.Handed? ==> |bytes| == KEY_LENGTH && (|r.keys| < MAX_SESSION_KEYS || Evictable(r)))
  {}

  lemma RoomByUse(r: Registry, used: map<Handle, nat>)
    requires ByLastUse(r.lru, used) && (|r.keys| < MAX_SESSION_KEYS || Evictable(r))
    ensures ByLastUse(MakeRoom(r).lru, used)
  {
    if |r.keys| >= MAX_SESSION_KEYS { TailByUse(r.lru, used, OldestFree(r.lru, r.pinned) + 1); }
  }

  lemma HappensByUse(t: History, fp: Bytes -> nat, op: Op)
    requires Chronicle(t, fp)
    ensures Chronicle(Happens(t, fp, op), fp)
  {
    match op
    case OpCreate(bytes) => CreateByUse(t, fp, bytes);
    case OpGet(h) => GetByUse(t, fp, h);
    case OpDestroy(h) =>
      DestroyKeeps(t.r, fp, h);
      WithoutByUse(t.r.lru, t.used, h);
    case OpDestroyAll =>
    case _ => PinsKeep(t.r, fp, op.h);
  }

  lemma {:induction false} RunByUse(t: History, fp: Bytes -> nat, ops: seq<Op>)
    requires Chronicle(t, fp)
    ensures Chronicle(HappensAll(t, fp, ops), fp)
    decreases |ops|
  {
    if ops != [] {
      HappensByUse(t, fp, ops[0]);
      RunByUse(Happens(t, fp, ops[0]), fp, ops[1..]);
    }
  }

  /** Listed, free, and not used since any other listed free handle was. */
  ghost predicate LeastRecentlyUsed(r: Registry, used: map<Handle, nat>, v: Handle)
    requires forall h :: h in r.lru ==> h in used
  {
    v in r.lru && v !in r.pinned && forall h :: h in r.lru && h !in r.pinned ==> used[v] <= used[h]
  }

  lemma VictimOldest(r: Registry, used: map<Handle, nat>, v: Handle)
    requires NoneTwice(r.lru) && ByLastUse(r.lru, used) && |r.keys| >= MAX_SESSION_KEYS
    ensures Victim(r) == Some(v) <==> LeastRecentlyUsed(r, used, v)
  {
    var i := OldestFree(r.lru, r.pinned);
    if i < |r.lru| {
      assert r.lru[i] in r.lru;
      forall h | h in r.lru && h !in r.pinned ensures h == r.lru[i] || used[r.lru[i]] < used[h] {
        var j :| 0 <= j < |r.lru| && r.lru[j] == h;
        assert j >= i;
      }
    }
  }

  /**
   After every sequence of calls, the key a full registry gives up for a new one is that
   of the least recently used handle: of those listed and not pinned, the one whose
   creation or last successful get lies furthest back.
   */
  lemma VictimIsLeastRecentlyUsed(fp: Bytes -> nat, ops: seq<Op>, bytes: Bytes, v: Handle)
    requires |bytes| == KEY_LENGTH && |HappensAll(History(EMPTY, map[], 0), fp, ops).r.keys| >= MAX_SESSION_KEYS
    ensures var t := HappensAll(History(EMPTY, map[], 0), fp, ops);
            && t.r == Run(EMPTY, fp, ops) && (forall h :: h in t.r.lru ==> h in t.used)
            && (v in t.r.keys && v !in Create(t.r, bytes, fp(bytes)).0.keys <==> LeastRecentlyUsed(t.r, t.used, v))
  {
    var t := HappensAll(History(EMPTY, map[], 0), fp, ops);
    RunByUse(History(EMPTY, map[], 0), fp, ops);
    SameRun(History(EMPTY, map[], 0), fp, ops);
    VictimOldest(t.r, t.used, v);
    CreateExactly(t.r, fp, bytes);
    assert v in t.r.keys ==> v < t.r.next;
    VictimListed(t.r);
  }

  lemma VictimListed(r: Registry)
    ensures Victim(r).Some? ==> Victim(r).value in r.lru
  {}

  lemma {:induction false} SameRun(t: History, fp: Bytes -> nat, ops: seq<Op>)
    ensures HappensAll(t, fp, ops).r == Run(t.r, fp, ops)
    decreases |ops|
  {
    if ops != [] { SameRun(Happens(t, fp, ops[0]), fp, ops[1..]); }
  }
}
