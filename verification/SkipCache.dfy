/** Facts about the skip-key cache: what a skipped range holds, and what pruning keeps. */
module SkipCache {
  import opened Symbolic
  import opened RatchetSpec

  /** Skipping from a counter caches, for every position passed over, the key of that position. */
  lemma {:induction false} RangeOnChain(seed: ChainKey, c: Chain, num: nat, gen: nat)
    requires c.key == Advance(seed, c.count)
    ensures forall n :: n in SkipRange(c.key, c.count, num, gen) <==> n.gen == gen && c.count <= n.num < num
    ensures forall n :: n in SkipRange(c.key, c.count, num, gen) ==>
              SkipRange(c.key, c.count, num, gen)[n] == MsgKey(Advance(seed, n.num))
  {
    forall n: Nonce | n.gen == gen && c.count <= n.num < num
      ensures n in SkipRange(c.key, c.count, num, gen)
      ensures SkipRange(c.key, c.count, num, gen)[n] == MsgKey(Advance(seed, n.num))
    {
      assert n == Nonce(gen, n.num);
      AdvanceAdd(seed, c.count, n.num - c.count);
    }
  }

  lemma {:induction false} CountBetween(keys: set<Nonce>, gen: nat, lo: nat, hi: nat)
    requires lo <= hi
    requires forall n :: n in keys ==> n.gen == gen && lo <= n.num < hi
    ensures |keys| <= hi - lo
    decreases hi - lo
  {
    if lo == hi {
      assert keys == {};
    } else {
      CountBetween(keys - {Nonce(gen, hi - 1)}, gen, lo, hi - 1);
      assert keys <= (keys - {Nonce(gen, hi - 1)}) + {Nonce(gen, hi - 1)};
    }
  }

  /** Pruning never evicts a key of the current generation among the last `budget` positions. */
  lemma {:induction false} KeptByPrune(store: SkipKeys, n: Nonce, top: nat, budget: nat)
    requires n in store && n.num < top && n.num + budget >= top
    requires forall k :: k in store ==> k.gen <= n.gen && (k.gen == n.gen ==> k.num < top)
    ensures n in Prune(store, n.gen, budget)
  {
    var recent := RecentOnly(store, n.gen);
    CountBetween(NewerThan(recent.Keys, n), n.gen, n.num + 1, top);
  }

  /** Pruning bounds the cache. */
  lemma {:induction false} PruneBounded(store: SkipKeys, gen: nat, budget: nat)
    ensures |Prune(store, gen, budget)| <= budget
  {
    NewestBounded(RecentOnly(store, gen), budget);
  }

  /** It keeps keys of the current and the previous generation only, and of those the newest ones. */
  lemma {:induction false} PruneKeepsNewest(store: SkipKeys, gen: nat, budget: nat, n: Nonce, k: Nonce)
    requires n in Prune(store, gen, budget)
    ensures n in store && Prune(store, gen, budget)[n] == store[n] && (n.gen == gen || n.gen + 1 == gen)
    ensures k in store && (k.gen == gen || k.gen + 1 == gen) && Newer(k, n) ==> k in Prune(store, gen, budget)
  {
    var recent := RecentOnly(store, gen);
    if k in recent && Newer(k, n) { CardLe(NewerThan(recent.Keys, k), NewerThan(recent.Keys, n)); }
  }

  lemma {:induction false} OldestOf(keys: set<Nonce>) returns (n: Nonce)
    requires keys != {}
    ensures n in keys && forall k :: k in keys && k != n ==> Newer(k, n)
    decreases |keys|
  {
    var x :| x in keys;
    n := x;
    var rest := keys - {x};
    assert keys == rest + {x};
    if rest != {} {
      var m := OldestOf(rest);
      assert Newer(x, m) || Newer(m, x);
      if Newer(x, m) { n := m; }
    }
  }

  lemma {:induction false} NewestBounded(store: SkipKeys, budget: nat)
    ensures |Newest(store, budget)| <= budget
  {
    var kept := Newest(store, budget).Keys;
    if kept != {} {
      var n := OldestOf(kept);
      assert kept - {n} <= NewerThan(store.Keys, n);
      CardLe(kept - {n}, NewerThan(store.Keys, n));
      assert |kept - {n}| == |kept| - 1;
    }
    assert |Newest(store, budget)| == |kept|;
  }

  lemma {:induction false} CardLe<T>(a: set<T>, b: set<T>)
    requires a <= b
    ensures |a| <= |b|
    decreases a
  {
    if x :| x in a {
      CardLe(a - {x}, b - {x});
    }
  }
}
