/** The handle registry in the form the code base has it: maps, a deque and a set changed in place. */
module Handles {
  import opened Symbolic
  import opened HandleSpec

  method HasFree(lru: seq<Handle>, pinned: set<Handle>) returns (free: bool)
    ensures free == (OldestFree(lru, pinned) < |lru|)
  {
    for i := 0 to |lru|
      invariant forall j :: 0 <= j < i ==> lru[j] in pinned
    {
      if lru[i] !in pinned { return true; }
    }
    free := false;
  }

  /** Remove the first occurrence, if there is one. */
  method RemoveHandle(lru: seq<Handle>, h: Handle) returns (r: seq<Handle>)
    ensures r == Without(lru, h)
  {
    var i := 0;
    while i < |lru| && lru[i] != h
      invariant i <= |lru|
      invariant h !in lru[..i]
    {
      i := i + 1;
    }
    r := if i < |lru| then lru[..i] + lru[i + 1..] else lru;
    WithoutAt(lru, h, i);
  }

  lemma {:induction false} WithoutAt(lru: seq<Handle>, h: Handle, i: nat)
    requires i <= |lru| && h !in lru[..i] && (i < |lru| ==> lru[i] == h)
    ensures Without(lru, h) == if i < |lru| then lru[..i] + lru[i + 1..] else lru
  {
    if i > 0 {
      var rest := lru[1..];
      assert lru == [lru[0]] + rest && lru[..i] == [lru[0]] + rest[..i - 1];
      WithoutAt(rest, h, i - 1);
      assert i < |lru| ==> rest[i..] == lru[i + 1..];
    }
  }

  class SessionRegistry {
    var keys: map<Handle, Bytes>
    var fingerprints: map<Handle, nat>
    var lru: seq<Handle>
    var pinned: set<Handle>
    var next: Handle
    /** The digest used as a fingerprint. */
    const digest: Bytes -> nat

    function View(): Registry
      reads this
    {
      Registry(keys, fingerprints, lru, pinned, next)
    }

    constructor (digest: Bytes -> nat)
      ensures View() == EMPTY && this.digest == digest
    {
      this.digest := digest;
      keys, fingerprints, lru, pinned, next := map[], map[], [], {}, 1;
    }

    method EvictLru()
      modifies `keys, `fingerprints, `lru
      ensures View() == Evict(old(View()))
    {
      ghost var r := View();
      var done := false;
      ghost var i := 0;
      while lru != [] && !done
        invariant !done ==> i <= |r.lru| && lru == r.lru[i..] && keys == r.keys && fingerprints == r.fingerprints
        invariant !done ==> i <= OldestFree(r.lru, r.pinned)
        invariant done ==> View() == Evict(r)
        invariant pinned == r.pinned && next == r.next
        decreases if done then 0 else 1 + |lru|
      {
        var oldest := lru[0];
        lru := lru[1..];
        if oldest !in pinned {
          keys, fingerprints := keys - {oldest}, fingerprints - {oldest};
          done := true;
        } else {
          i := i + 1;
        }
      }
    }

    method TouchHandle(h: Handle)
      modifies `lru
      ensures lru == Touch(old(lru), h)
    {
      if h in lru {
        var rest := RemoveHandle(lru, h);
        lru := rest + [h];
      }
    }

    method CreateHandle(bytes: Bytes) returns (c: Created)
      modifies this
      ensures (View(), c) == Create(old(View()), bytes, digest(bytes))
    {
      if |bytes| != KEY_LENGTH {
        return BadLength;
      }
      if |keys| >= MAX_SESSION_KEYS {
        var free := HasFree(lru, pinned);
        if !free {
          return AllPinned;
        }
        EvictLru();
      }
      if digest(bytes) in fingerprints.Values {
        return AlreadyHeld;
      }
      var id := next;
      next, keys, fingerprints, lru := id + 1, keys[id := bytes], fingerprints[id := digest(bytes)], lru + [id];
      c := Handed(id);
    }

    method GetKey(h: Handle) returns (key: Option<Bytes>)
      modifies `lru
      ensures (View(), key) == Get(old(View()), h)
    {
      key := if h in keys then Some(keys[h]) else None;
      if key.Some? { TouchHandle(h); }
    }

    method DestroyHandle(h: Handle)
      modifies this
      ensures View() == Destroy(old(View()), h)
    {
      keys, fingerprints, pinned := keys - {h}, fingerprints - {h}, pinned - {h};
      lru := RemoveHandle(lru, h);
    }

    method PinHandle(h: Handle) returns (live: bool)
      modifies `pinned
      ensures (View(), live) == Pin(old(View()), h)
    {
      live := h in keys;
      if live { pinned := pinned + {h}; }
    }

    method UnpinHandle(h: Handle)
      modifies `pinned
      ensures View() == Unpin(old(View()), h)
    {
      pinned := pinned - {h};
    }

    method DestroyEverything()
      modifies this
      ensures View() == DestroyAll(old(View()))
    {
      keys, fingerprints, lru, pinned := map[], map[], [], {};
    }
  }
}
