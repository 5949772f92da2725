/** What holds of the handle registry over every sequence of calls. */
module HandleTheorems {
  import opened Symbolic
  import opened HandleSpec

  // ----- Runs -----

  datatype Op = OpCreate(bytes: Bytes) | OpGet(h: Handle) | OpPin(h: Handle) | OpUnpin(h: Handle) | OpDestroy(h: Handle) | OpDestroyAll

  function Apply(r: Registry, fp: Bytes -> nat, op: Op): Registry {
    match op
    case OpCreate(bytes) => Create(r, bytes, fp(bytes)).0
    case OpGet(h) => Get(r, h).0
    case OpPin(h) => Pin(r, h).0
    case OpUnpin(h) => Unpin(r, h)
    case OpDestroy(h) => Destroy(r, h)
    case OpDestroyAll => DestroyAll(r)
  }

  function Run(r: Registry, fp: Bytes -> nat, ops: seq<Op>): Registry
    decreases |ops|
  {
    if ops == [] then r else Run(Apply(r, fp, ops[0]), fp, ops[1..])
  }

  // ----- The invariant -----

  ghost predicate NoneTwice(lru: seq<Handle>) {
    forall i, j :: 0 <= i < j < |lru| ==> lru[i] != lru[j]
  }

  ghost predicate PrintsOk(r: Registry, fp: Bytes -> nat) {
    && r.keys.Keys == r.fingerprints.Keys
    && (forall h :: h in r.keys ==> r.fingerprints[h] == fp(r.keys[h]) && |r.keys[h]| == KEY_LENGTH)
    && (forall g, h :: g in r.keys && h in r.keys && g != h ==> r.fingerprints[g] != r.fingerprints[h])
  }

  ghost predicate OrderOk(r: Registry) {
    NoneTwice(r.lru) && (forall h :: h in r.lru ==> h in r.keys)
  }

  ghost predicate Valid(r: Registry, fp: Bytes -> nat) {
    && |r.keys| <= MAX_SESSION_KEYS
    && PrintsOk(r, fp) && OrderOk(r)
    && r.pinned <= r.keys.Keys
    && (forall h :: h in r.keys ==> h < r.next)
  }

  lemma {:induction false} WithoutOnce(lru: seq<Handle>, h: Handle)
    requires NoneTwice(lru)
    ensures NoneTwice(Without(lru, h)) && forall g :: g in Without(lru, h) <==> g in lru && g != h
  {
    if lru != [] {
      var rest := lru[1..];
      assert forall j :: 0 <= j < |rest| ==> rest[j] == lru[j + 1];
      assert lru[0] !in rest && lru == [lru[0]] + rest;
      WithoutOnce(rest, h);
      if lru[0] != h { Prepend(lru[0], Without(rest, h)); }
    }
  }

  lemma Prepend(h: Handle, lru: seq<Handle>)
    requires NoneTwice(lru) && h !in lru
    ensures NoneTwice([h] + lru)
  {
    assert forall i :: 0 <= i < |lru| ==> lru[i] in lru;
  }

  lemma Append(lru: seq<Handle>, h: Handle)
    requires NoneTwice(lru) && h !in lru
    ensures NoneTwice(lru + [h])
  {
    assert forall i :: 0 <= i < |lru| ==> lru[i] in lru;
  }

  lemma EvictKeeps(r: Registry, fp: Bytes -> nat)
    requires Valid(r, fp) && Evictable(r)
    ensures var victim := r.lru[OldestFree(r.lru, r.pinned)];
            && Valid(Evict(r), fp)
            && victim !in r.pinned && Evict(r).keys == r.keys - {victim} && |Evict(r).keys| == |r.keys| - 1
  {
    var i := OldestFree(r.lru, r.pinned);
    var victim := r.lru[i];
    assert victim in r.keys;
    assert (r.keys - {victim}).Keys == r.keys.Keys - {victim};
    TailOk(r.lru, i);
  }

  /** What is left of the order behind an entry no longer lists it. */
  lemma TailOk(lru: seq<Handle>, i: nat)
    requires NoneTwice(lru) && i < |lru|
    ensures NoneTwice(lru[i + 1..]) && lru[i] !in lru[i + 1..] && forall h :: h in lru[i + 1..] ==> h in lru
  {
    var rest := lru[i + 1..];
    assert forall j :: 0 <= j < |rest| ==> rest[j] == lru[i + 1 + j];
  }

  lemma CreateKeeps(r: Registry, fp: Bytes -> nat, bytes: Bytes)
    requires Valid(r, fp)
    ensures Valid(Create(r, bytes, fp(bytes)).0, fp)
  {
    if |bytes| == KEY_LENGTH && (|r.keys| < MAX_SESSION_KEYS || Evictable(r)) {
      if |r.keys| >= MAX_SESSION_KEYS { EvictKeeps(r, fp); }
      InsertKeeps(MakeRoom(r), fp, bytes);
    }
  }

  function Insert(room: Registry, bytes: Bytes, fingerprint: nat): Registry {
    Registry(room.keys[room.next := bytes], room.fingerprints[room.next := fingerprint], room.lru + [room.next], room.pinned, room.next + 1)
  }

  lemma InsertKeeps(room: Registry, fp: Bytes -> nat, bytes: Bytes)
    requires Valid(room, fp) && |room.keys| < MAX_SESSION_KEYS && |bytes| == KEY_LENGTH
    ensures fp(bytes) !in room.fingerprints.Values ==> Valid(Insert(room, bytes, fp(bytes)), fp)
  {
    if fp(bytes) !in room.fingerprints.Values {
      assert room.keys[room.next := bytes].Keys == room.keys.Keys + {room.next};
      InsertPrints(room, fp, bytes);
      Append(room.lru, room.next);
    }
  }

  lemma InsertPrints(room: Registry, fp: Bytes -> nat, bytes: Bytes)
    requires PrintsOk(room, fp) && room.next !in room.keys && |bytes| == KEY_LENGTH && fp(bytes) !in room.fingerprints.Values
    ensures PrintsOk(Insert(room, bytes, fp(bytes)), fp)
  {
    forall h | h in room.keys ensures room.fingerprints[h] != fp(bytes) {
      assert room.fingerprints[h] in room.fingerprints.Values;
    }
  }

  lemma DestroyKeeps(r: Registry, fp: Bytes -> nat, h: Handle)
    requires Valid(r, fp)
    ensures Valid(Destroy(r, h), fp)
  {
    WithoutOnce(r.lru, h);
    assert (r.keys - {h}).Keys == r.keys.Keys - {h};
    assert |r.keys.Keys - {h}| <= |r.keys.Keys|;
  }

  lemma TouchKeeps(lru: seq<Handle>, h: Handle)
    requires NoneTwice(lru)
    ensures NoneTwice(Touch(lru, h)) && forall g :: g in Touch(lru, h) <==> g in lru
  {
    WithoutOnce(lru, h);
    if h in lru {
      var rest := Without(lru, h);
      assert forall i :: 0 <= i < |rest| ==> rest[i] in rest;
    }
  }

  lemma ApplyKeeps(r: Registry, fp: Bytes -> nat, op: Op)
    requires Valid(r, fp)
    ensures Valid(Apply(r, fp, op), fp) && r.next <= Apply(r, fp, op).next
  {
    match op
    case OpCreate(bytes) => CreateKeeps(r, fp, bytes);
    case OpGet(h) => GetKeeps(r, fp, h);
    case OpDestroy(h) => DestroyKeeps(r, fp, h);
    case OpDestroyAll =>
    case _ => PinsKeep(r, fp, op.h);
  }

  lemma GetKeeps(r: Registry, fp: Bytes -> nat, h: Handle)
    requires Valid(r, fp)
    ensures Valid(Get(r, h).0, fp)
  {
    TouchKeeps(r.lru, h);
  }

  lemma PinsKeep(r: Registry, fp: Bytes -> nat, h: Handle)
    requires Valid(r, fp)
    ensures Valid(Pin(r, h).0, fp) && Valid(Unpin(r, h), fp)
  {}

  /** Every sequence of calls keeps the registry well formed. */
  lemma {:induction false} RunKeeps(r: Registry, fp: Bytes -> nat, ops: seq<Op>)
    requires Valid(r, fp)
    ensures Valid(Run(r, fp, ops), fp) && r.next <= Run(r, fp, ops).next
    decreases |ops|
  {
    if ops != [] {
      ApplyKeeps(r, fp, ops[0]);
      RunKeeps(Apply(r, fp, ops[0]), fp, ops[1..]);
    }
  }

  lemma AlwaysValid(fp: Bytes -> nat, ops: seq<Op>)
    ensures Valid(Run(EMPTY, fp, ops), fp) && |Run(EMPTY, fp, ops).keys| <= 256
    ensures forall h :: h in Run(EMPTY, fp, ops).keys ==> |Run(EMPTY, fp, ops).keys[h]| == 32
  {
    RunKeeps(EMPTY, fp, ops);
  }

  // ----- Handles -----

  lemma ApplyStable(r: Registry, fp: Bytes -> nat, op: Op, h: Handle)
    requires Valid(r, fp) && h < r.next && h in Apply(r, fp, op).keys
    ensures h in r.keys && Apply(r, fp, op).keys[h] == r.keys[h]
  {}

  /** A handle once issued never names another key, and one that is gone never comes back. */
  lemma {:induction false} NeverReissued(r: Registry, fp: Bytes -> nat, ops: seq<Op>, h: Handle)
    requires Valid(r, fp) && h < r.next && h in Run(r, fp, ops).keys
    ensures h in r.keys && Run(r, fp, ops).keys[h] == r.keys[h]
    decreases |ops|
  {
    if ops != [] {
      ApplyKeeps(r, fp, ops[0]);
      NeverReissued(Apply(r, fp, ops[0]), fp, ops[1..], h);
      ApplyStable(r, fp, ops[0], h);
    }
  }

  /** A handle given out for some bytes gives back those bytes, after any sequence of calls, or nothing once it is gone. */
  lemma HandleNamesItsKey(r: Registry, fp: Bytes -> nat, bytes: Bytes, ops: seq<Op>)
    requires Valid(r, fp) && Create(r, bytes, fp(bytes)).1.Handed?
    ensures var (r1, c) := Create(r, bytes, fp(bytes));
            var r2 := Run(r1, fp, ops);
            Get(r2, c.handle).1 == if c.handle in r2.keys then Some(bytes) else None
  {
    var (r1, c) := Create(r, bytes, fp(bytes));
    CreateKeeps(r, fp, bytes);
    if c.handle in Run(r1, fp, ops).keys { NeverReissued(r1, fp, ops, c.handle); }
  }

  /** A destroyed handle gives nothing, whatever follows; pinning it is refused. */
  lemma DestroyedIsGone(r: Registry, fp: Bytes -> nat, h: Handle, ops: seq<Op>)
    requires Valid(r, fp) && h < r.next
    ensures var r2 := Run(Destroy(r, h), fp, ops); Get(r2, h).1.None? && !Pin(r2, h).1 && h !in r2.pinned
    ensures var r2 := Run(DestroyAll(r), fp, ops); Get(r2, h).1.None? && !Pin(r2, h).1
  {
    DestroyKeeps(r, fp, h);
    GoneStaysGone(Destroy(r, h), fp, ops, h);
    GoneStaysGone(DestroyAll(r), fp, ops, h);
  }

  lemma GoneStaysGone(r: Registry, fp: Bytes -> nat, ops: seq<Op>, h: Handle)
    requires Valid(r, fp) && h < r.next && h !in r.keys
    ensures h !in Run(r, fp, ops).keys && h !in Run(r, fp, ops).pinned
  {
    RunKeeps(r, fp, ops);
    if h in Run(r, fp, ops).keys { NeverReissued(r, fp, ops, h); }
  }

  predicate Spares(op: Op, h: Handle) {
    op != OpDestroy(h) && op != OpDestroyAll
  }

  lemma ApplySparesPinned(r: Registry, fp: Bytes -> nat, op: Op, h: Handle)
    requires Valid(r, fp) && h in r.pinned && Spares(op, h) && op != OpUnpin(h)
    ensures var r' := Apply(r, fp, op); h in r'.pinned && h in r'.keys && r'.keys[h] == r.keys[h]
  {
    if op.OpCreate? && |op.bytes| == KEY_LENGTH {
      CreateExactly(r, fp, op.bytes);
      ApplyStable(r, fp, op, h);
    }
  }

  /** A handle that stays pinned leaves by an explicit destroy only, however many handles are created meanwhile. */
  lemma {:induction false} PinnedSurvives(r: Registry, fp: Bytes -> nat, ops: seq<Op>, h: Handle)
    requires Valid(r, fp) && h in r.pinned
    requires forall i :: 0 <= i < |ops| ==> Spares(ops[i], h) && ops[i] != OpUnpin(h)
    ensures var r' := Run(r, fp, ops); h in r'.keys && r'.keys[h] == r.keys[h]
    decreases |ops|
  {
    if ops != [] {
      ApplyKeeps(r, fp, ops[0]);
      ApplySparesPinned(r, fp, ops[0], h);
      assert forall i :: 0 <= i < |ops[1..]| ==> ops[1..][i] == ops[i + 1];
      PinnedSurvives(Apply(r, fp, ops[0]), fp, ops[1..], h);
    }
  }

  // ----- Creation -----

  /** The handle a full registry gives up: the least recently used one that is not pinned. */
  function Victim(r: Registry): Option<Handle> {
    var i := OldestFree(r.lru, r.pinned);
    if |r.keys| >= MAX_SESSION_KEYS && i < |r.lru| then Some(r.lru[i]) else None
  }

  lemma MakeRoomExactly(r: Registry, fp: Bytes -> nat)
    requires Valid(r, fp)
    ensures Evictable(r) <==> exists h :: h in r.lru && h !in r.pinned
    ensures |r.keys| < MAX_SESSION_KEYS || Evictable(r) ==>
              Valid(MakeRoom(r), fp) && forall h :: h in MakeRoom(r).keys <==> h in r.keys && Victim(r) != Some(h)
  {
    var i := OldestFree(r.lru, r.pinned);
    if Evictable(r) {
      assert r.lru[i] in r.lru;
      EvictKeeps(r, fp);
    }
  }

  lemma HeldExactly(room: Registry, fp: Bytes -> nat, bytes: Bytes)
    requires PrintsOk(room, fp)
    ensures fp(bytes) in room.fingerprints.Values <==> exists h :: h in room.keys && fp(room.keys[h]) == fp(bytes)
  {
    forall h | h in room.keys ensures room.fingerprints[h] in room.fingerprints.Values {}
  }

  /**
   The verdict of a creation and what it does to the other keys.  A creation refused
   as a duplicate still costs a full registry its victim.
   */
  lemma CreateExactly(r: Registry, fp: Bytes -> nat, bytes: Bytes)
    requires Valid(r, fp) && |bytes| == KEY_LENGTH
    ensures var (r', c) := Create(r, bytes, fp(bytes));
            && (c.AllPinned? <==> |r.keys| >= MAX_SESSION_KEYS && forall h :: h in r.lru ==> h in r.pinned)
            && (c.AlreadyHeld? <==> !c.AllPinned? && exists h :: h in r.keys && Victim(r) != Some(h) && fp(r.keys[h]) == fp(bytes))
            && (c.Handed? ==> c.handle == r.next && c.handle in r'.keys && r'.keys[c.handle] == bytes)
            && (forall h :: h < r.next ==> (h in r'.keys <==> h in r.keys && Victim(r) != Some(h)))
  {
    MakeRoomExactly(r, fp);
    if |r.keys| < MAX_SESSION_KEYS || Evictable(r) {
      HeldExactly(MakeRoom(r), fp, bytes);
    }
  }

  // ----- Handles the eviction order has lost -----

  lemma ApplySparesForgotten(r: Registry, fp: Bytes -> nat, op: Op, h: Handle)
    requires Valid(r, fp) && h in r.keys && h !in r.lru && Spares(op, h)
    ensures var r' := Apply(r, fp, op); h in r'.keys && h !in r'.lru
  {
    match op
    case OpGet(g) => TouchKeeps(r.lru, g);
    case OpDestroy(g) => WithoutOnce(r.lru, g);
    case OpCreate(bytes) =>
      if |bytes| == KEY_LENGTH { CreateSparesForgotten(r, fp, bytes, h); }
    case _ =>
  }

  lemma CreateSparesForgotten(r: Registry, fp: Bytes -> nat, bytes: Bytes, h: Handle)
    requires Valid(r, fp) && h in r.keys && h !in r.lru && |bytes| == KEY_LENGTH
    ensures var r' := Create(r, bytes, fp(bytes)).0; h in r'.keys && h !in r'.lru
  {
    CreateExactly(r, fp, bytes);
    var i := OldestFree(r.lru, r.pinned);
    assert i < |r.lru| ==> r.lru[i] in r.lru;
    if |r.keys| >= MAX_SESSION_KEYS && Evictable(r) {
      CreatedOrder(r, bytes, fp(bytes));
      assert forall g :: g in r.lru[i + 1..] ==> g in r.lru;
    }
  }

  /** A handle missing from the eviction order is never evicted again, pinned or not. */
  lemma {:induction false} ForgottenHandleStays(r: Registry, fp: Bytes -> nat, ops: seq<Op>, h: Handle)
    requires Valid(r, fp) && h in r.keys && h !in r.lru
    requires forall i :: 0 <= i < |ops| ==> Spares(ops[i], h)
    ensures h in Run(r, fp, ops).keys
    decreases |ops|
  {
    if ops != [] {
      ApplyKeeps(r, fp, ops[0]);
      ApplySparesForgotten(r, fp, ops[0], h);
      assert forall i :: 0 <= i < |ops[1..]| ==> ops[1..][i] == ops[i + 1];
      ForgottenHandleStays(Apply(r, fp, ops[0]), fp, ops[1..], h);
    }
  }

  /**
   One creation in a full registry is enough to lose a pinned handle from the order: it
   happens exactly to the pinned handles older than the victim.
   */
  lemma EvictionForgetsExactly(r: Registry, fp: Bytes -> nat, bytes: Bytes, k: nat)
    requires Valid(r, fp) && |bytes| == KEY_LENGTH && |r.keys| >= MAX_SESSION_KEYS && Evictable(r)
    requires k < |r.lru| && r.lru[k] in r.pinned
    ensures var r' := Create(r, bytes, fp(bytes)).0;
            r.lru[k] in r'.keys && (r.lru[k] !in r'.lru <==> k < OldestFree(r.lru, r.pinned))
  {
    var i := OldestFree(r.lru, r.pinned);
    ApplySparesPinned(r, fp, OpCreate(bytes), r.lru[k]);
    CreatedOrder(r, bytes, fp(bytes));
    TailHolds(r.lru, i + 1, k);
    assert r.lru[k] < r.next;
  }

  /** A creation that finds the registry full keeps the order behind the victim, and at most adds the new handle. */
  lemma CreatedOrder(r: Registry, bytes: Bytes, fingerprint: nat)
    requires |bytes| == KEY_LENGTH && |r.keys| >= MAX_SESSION_KEYS && Evictable(r)
    ensures var rest, lru := r.lru[OldestFree(r.lru, r.pinned) + 1..], Create(r, bytes, fingerprint).0.lru;
            lru == rest || lru == rest + [r.next]
  {}

  lemma TailHolds(lru: seq<Handle>, from: nat, k: nat)
    requires NoneTwice(lru) && from <= |lru| && k < |lru|
    ensures lru[k] in lru[from..] <==> k >= from
  {
    if k >= from { assert lru[from..][k - from] == lru[k]; }
  }

  function Pins(handles: seq<Handle>): seq<Op> {
    if handles == [] then [] else [OpPin(handles[0])] + Pins(handles[1..])
  }

  lemma {:induction false} PinAll(r: Registry, fp: Bytes -> nat, handles: seq<Handle>)
    requires forall h :: h in handles ==> h in r.keys
    ensures Run(r, fp, Pins(handles)) == r.(pinned := r.pinned + set h | h in handles)
    decreases |handles|
  {
    if handles == [] {
      assert (set h | h in handles) == {};
    } else {
      var r' := Pin(r, handles[0]).0;
      assert Pins(handles)[1..] == Pins(handles[1..]);
      PinAll(r', fp, handles[1..]);
      assert (set h | h in handles) == {handles[0]} + set h | h in handles[1..];
    }
  }

  /**
   Unpinning does not bring a forgotten handle back.  From every full registry whose
   oldest handle is pinned, one creation, pins on the rest and an unpin lead to a
   registry that refuses to create although it holds an unpinned handle.
   */
  lemma RefusesThoughOneIsFree(r: Registry, fp: Bytes -> nat, bytes: Bytes, later: Bytes)
    requires Valid(r, fp) && |r.keys| >= MAX_SESSION_KEYS && Evictable(r) && r.lru[0] in r.pinned
    requires |bytes| == KEY_LENGTH == |later| && Create(r, bytes, fp(bytes)).1.Handed?
    ensures var r1 := Create(r, bytes, fp(bytes)).0;
            var r3 := Unpin(Run(r1, fp, Pins(r1.lru)), r.lru[0]);
            r.lru[0] in r3.keys && r.lru[0] !in r3.pinned && Create(r3, later, fp(later)).1.AllPinned?
  {
    var r1 := Create(r, bytes, fp(bytes)).0;
    CreateKeeps(r, fp, bytes);
    EvictionForgetsExactly(r, fp, bytes, 0);
    PinAll(r1, fp, r1.lru);
    FullAgain(r, fp, bytes);
  }

  lemma FullAgain(r: Registry, fp: Bytes -> nat, bytes: Bytes)
    requires Valid(r, fp) && Evictable(r) && |r.keys| >= MAX_SESSION_KEYS && Create(r, bytes, fp(bytes)).1.Handed?
    ensures |Create(r, bytes, fp(bytes)).0.keys| >= MAX_SESSION_KEYS
  {
    EvictKeeps(r, fp);
    assert r.next !in Evict(r).keys;
  }
}
