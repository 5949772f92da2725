/**
 The registry of session key handles: at most 256 keys, an eviction order, and pins.
 Fingerprints are any function of the key bytes.
 */
module HandleSpec {
  import opened Symbolic

  const MAX_SESSION_KEYS := 256
  const KEY_LENGTH := 32

  type Handle = nat

  datatype Registry = Registry(
    keys: map<Handle, Bytes>, fingerprints: map<Handle, nat>, lru: seq<Handle>, pinned: set<Handle>, next: Handle)

  const EMPTY := Registry(map[], map[], [], {}, 1)

  datatype Created = Handed(handle: Handle) | BadLength | AllPinned | AlreadyHeld

  // ----- Operations -----

  /** The index of the oldest entry that is not pinned. */
  function OldestFree(lru: seq<Handle>, pinned: set<Handle>): (i: nat)
    ensures i <= |lru| && (i < |lru| ==> lru[i] !in pinned)
    ensures forall j :: 0 <= j < i ==> lru[j] in pinned
  {
    if lru == [] || lru[0] !in pinned then 0
    else
      assert forall j :: 0 < j < |lru| ==> lru[j] == lru[1..][j - 1];
      1 + OldestFree(lru[1..], pinned)
  }

  predicate Evictable(r: Registry) {
    OldestFree(r.lru, r.pinned) < |r.lru|
  }

  /** Drop entries from the front until one that is not pinned; that one loses its key. */
  function Evict(r: Registry): Registry {
    var i := OldestFree(r.lru, r.pinned);
    if i == |r.lru| then r.(lru := [])
    else r.(keys := r.keys - {r.lru[i]}, fingerprints := r.fingerprints - {r.lru[i]}, lru := r.lru[i + 1..])
  }

  function Without(lru: seq<Handle>, h: Handle): seq<Handle> {
    if lru == [] then [] else if lru[0] == h then lru[1..] else [lru[0]] + Without(lru[1..], h)
  }

  function Touch(lru: seq<Handle>, h: Handle): seq<Handle> {
    if h in lru then Without(lru, h) + [h] else lru
  }

  function MakeRoom(r: Registry): Registry {
    if |r.keys| >= MAX_SESSION_KEYS then Evict(r) else r
  }

  function Create(r: Registry, bytes: Bytes, fingerprint: nat): (Registry, Created) {
    if |bytes| != KEY_LENGTH then (r, BadLength)
    else if |r.keys| >= MAX_SESSION_KEYS && !Evictable(r) then (r, AllPinned)
    else
      var room := MakeRoom(r);
      if fingerprint in room.fingerprints.Values then (room, AlreadyHeld)
      else
        (Registry(room.keys[r.next := bytes], room.fingerprints[r.next := fingerprint], room.lru + [r.next], room.pinned, r.next + 1),
         Handed(r.next))
  }

  function Get(r: Registry, h: Handle): (Registry, Option<Bytes>) {
    if h in r.keys then (r.(lru := Touch(r.lru, h)), Some(r.keys[h])) else (r, None)
  }

  function Destroy(r: Registry, h: Handle): Registry {
    r.(keys := r.keys - {h}, fingerprints := r.fingerprints - {h}, pinned := r.pinned - {h}, lru := Without(r.lru, h))
  }

  function Pin(r: Registry, h: Handle): (Registry, bool) {
    if h in r.keys then (r.(pinned := r.pinned + {h}), true) else (r, false)
  }

  function Unpin(r: Registry, h: Handle): Registry {
    r.(pinned := r.pinned - {h})
  }

  function DestroyAll(r: Registry): Registry {
    Registry(map[], map[], [], {}, r.next)
  }
}
