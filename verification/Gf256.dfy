/**
 The field GF(2^8) that the secret sharing works in: bytes under xor and a
 multiplication driven by a logarithm and an antilogarithm table.

 Every law is proved for any tables that pass `Valid`, over any carrier; the
 tables of the repository are `Gf256Source.Source()`, and
 `Gf256Source.SourceValid` checks them entry by entry.
 */
module Gf256 {

  /** n applications of a step. */
  function Iter<E>(step: E -> E, n: nat, a: E): E {
    if n == 0 then a else step(Iter(step, n - 1, a))
  }

  /**
   A logarithm and an antilogarithm table of 255 nonzero elements, together with
   the addition (xor) and the multiplication by the generator they encode.
   */
  datatype Tables<!E(==, !new)> =
    Tables(zero: E, one: E, add: (E, E) -> E, step: E -> E, exp: seq<E>, log: E -> int)
  {
    ghost predicate CommAt(a: E, b: E) { add(a, b) == add(b, a) }

    ghost predicate AssocAt(a: E, b: E, c: E) { add(add(a, b), c) == add(a, add(b, c)) }

    ghost predicate UnitAt(a: E) { add(a, zero) == a && add(a, a) == zero }

    ghost predicate LinearAt(a: E, b: E) { step(add(a, b)) == add(step(a), step(b)) }

    ghost predicate StepAt(i: int) { 0 <= i < 255 ==> |exp| == 256 && exp[i + 1] == step(exp[i]) }

    ghost predicate LogAt(a: E) { a != zero ==> |exp| == 256 && 0 <= log(a) < 255 && exp[log(a)] == a }

    /**
     add is a group of exponent two on which the generator acts linearly, exp
     lists the powers of the generator and returns to one, and log inverts exp.
     */
    ghost predicate Valid() {
      && |exp| == 256 && exp[0] == one && exp[255] == one && one != zero
      && (forall a, b :: CommAt(a, b))
      && (forall a, b, c :: AssocAt(a, b, c))
      && (forall a :: UnitAt(a))
      && (forall a, b :: LinearAt(a, b))
      && (forall i :: StepAt(i))
      && (forall a :: LogAt(a))
    }

    function Mul(a: E, b: E): E
      requires Valid()
    {
      if a == zero || b == zero then zero
      else
        assert LogAt(a) && LogAt(b);
        var sum := log(a) + log(b);
        exp[if sum >= 255 then sum - 255 else sum]
    }

    function Inv(a: E): E
      requires Valid()
    {
      if a == zero then zero
      else
        assert LogAt(a);
        exp[255 - log(a)]
    }
  }

  // ----- Addition -----

  lemma AddSwap<E(!new)>(t: Tables<E>, a: E, b: E, c: E, d: E)
    requires t.Valid()
    ensures t.add(t.add(a, b), t.add(c, d)) == t.add(t.add(a, c), t.add(b, d))
  {
    assert t.AssocAt(a, b, t.add(c, d)) && t.AssocAt(b, c, d) && t.CommAt(b, c);
    assert t.AssocAt(c, b, d) && t.AssocAt(a, c, t.add(b, d));
  }

  /** Adding the same element twice changes nothing. */
  lemma AddCancel<E(!new)>(t: Tables<E>, a: E, b: E)
    requires t.Valid()
    ensures t.add(t.add(a, b), b) == a
    ensures t.add(a, b) == t.zero <==> a == b
  {
    assert t.AssocAt(a, b, b) && t.UnitAt(b) && t.UnitAt(a) && t.CommAt(t.zero, b);
  }

  // ----- Iterating the generator -----

  lemma {:induction false} IterAdd<E>(f: E -> E, m: nat, n: nat, a: E)
    ensures Iter(f, m + n, a) == Iter(f, m, Iter(f, n, a))
  {
    if m > 0 { IterAdd(f, m - 1, n, a); }
  }

  lemma {:induction false} IterLinear<E(!new)>(t: Tables<E>, n: nat, a: E, b: E)
    requires t.Valid()
    ensures Iter(t.step, n, t.add(a, b)) == t.add(Iter(t.step, n, a), Iter(t.step, n, b))
  {
    if n > 0 {
      IterLinear(t, n - 1, a, b);
      assert t.LinearAt(Iter(t.step, n - 1, a), Iter(t.step, n - 1, b));
    }
  }

  lemma {:induction false} IterZero<E(!new)>(t: Tables<E>, n: nat)
    requires t.Valid()
    ensures Iter(t.step, n, t.zero) == t.zero
  {
    if n > 0 {
      IterZero(t, n - 1);
      assert t.LinearAt(t.zero, t.zero) && t.UnitAt(t.zero) && t.UnitAt(t.step(t.zero));
    }
  }

  lemma {:induction false} ExpIsIter<E(!new)>(t: Tables<E>, i: nat)
    requires t.Valid() && i < 256
    ensures t.exp[i] == Iter(t.step, i, t.one)
  {
    if i > 0 {
      ExpIsIter(t, i - 1);
      assert t.StepAt(i - 1);
    }
  }

  /** The generator has order dividing 255 on every element, zero included. */
  lemma IterFullTurn<E(!new)>(t: Tables<E>, a: E)
    requires t.Valid()
    ensures Iter(t.step, 255, a) == a
  {
    if a == t.zero {
      IterZero(t, 255);
    } else {
      assert t.LogAt(a);
      var i := t.log(a);
      ExpIsIter(t, i);
      ExpIsIter(t, 255);
      IterAdd(t.step, 255, i, t.one);
      IterAdd(t.step, i, 255, t.one);
    }
  }

  /** Table multiplication by b is log b multiplications by the generator. */
  lemma MulIsIter<E(!new)>(t: Tables<E>, a: E, b: E)
    requires t.Valid() && b != t.zero
    ensures 0 <= t.log(b) < 255
    ensures t.Mul(a, b) == Iter(t.step, t.log(b), a)
  {
    assert t.LogAt(b);
    var j := t.log(b);
    if a == t.zero {
      IterZero(t, j);
    } else {
      assert t.LogAt(a);
      var i := t.log(a);
      ExpIsIter(t, i);
      IterAdd(t.step, j, i, t.one);
      if i + j < 255 {
        ExpIsIter(t, i + j);
      } else {
        ExpIsIter(t, i + j - 255);
        IterAdd(t.step, 255, i + j - 255, t.one);
        IterFullTurn(t, Iter(t.step, i + j - 255, t.one));
      }
    }
  }

  // ----- Field laws -----

  lemma MulComm<E(!new)>(t: Tables<E>, a: E, b: E)
    requires t.Valid()
    ensures t.Mul(a, b) == t.Mul(b, a)
  {}

  lemma MulDistrib<E(!new)>(t: Tables<E>, a: E, b: E, c: E)
    requires t.Valid()
    ensures t.Mul(t.add(a, b), c) == t.add(t.Mul(a, c), t.Mul(b, c))
    ensures t.Mul(c, t.add(a, b)) == t.add(t.Mul(c, a), t.Mul(c, b))
  {
    MulComm(t, t.add(a, b), c); MulComm(t, a, c); MulComm(t, b, c);
    if c == t.zero {
      assert t.UnitAt(t.zero);
    } else {
      MulIsIter(t, a, c); MulIsIter(t, b, c); MulIsIter(t, t.add(a, b), c);
      IterLinear(t, t.log(c), a, b);
    }
  }

  lemma MulAssoc<E(!new)>(t: Tables<E>, a: E, b: E, c: E)
    requires t.Valid()
    ensures t.Mul(t.Mul(a, b), c) == t.Mul(a, t.Mul(b, c))
  {
    if a != t.zero && c != t.zero {
      MulIsIter(t, b, a); MulIsIter(t, b, c);
      MulComm(t, a, b); MulComm(t, a, t.Mul(b, c));
      MulIsIter(t, t.Mul(b, a), c); MulIsIter(t, t.Mul(b, c), a);
      IterAdd(t.step, t.log(c), t.log(a), b); IterAdd(t.step, t.log(a), t.log(c), b);
    }
  }

  lemma MulOne<E(!new)>(t: Tables<E>, a: E)
    requires t.Valid()
    ensures t.Mul(t.one, a) == a && t.Mul(a, t.one) == a
  {
    MulComm(t, t.one, a);
    if a != t.zero {
      MulIsIter(t, t.one, a);
      assert t.LogAt(a);
      ExpIsIter(t, t.log(a));
    }
  }

  lemma MulInv<E(!new)>(t: Tables<E>, a: E)
    requires t.Valid() && a != t.zero
    ensures t.Mul(a, t.Inv(a)) == t.one && t.Inv(a) != t.zero
  {
    assert t.LogAt(a);
    var i := t.log(a);
    MulComm(t, a, t.Inv(a));
    MulIsIter(t, t.Inv(a), a);
    ExpIsIter(t, 255 - i);
    IterAdd(t.step, i, 255 - i, t.one);
    IterFullTurn(t, t.one);
  }

  lemma MulZero<E(!new)>(t: Tables<E>, a: E, b: E)
    requires t.Valid()
    ensures t.Mul(a, b) == t.zero <==> a == t.zero || b == t.zero
  {
    if a != t.zero && t.Mul(a, b) == t.zero {
      MulInv(t, a); MulComm(t, a, t.Inv(a));
      MulAssoc(t, t.Inv(a), a, b);
      MulOne(t, b);
    }
  }

  /** The element after one in the tables is the generator. */
  lemma MulGenerator<E(!new)>(t: Tables<E>, a: E)
    requires t.Valid()
    ensures t.Mul(a, t.step(t.one)) == t.step(a)
  {
    var g := t.step(t.one);
    MulComm(t, a, g);
    if a == t.zero {
      assert t.LinearAt(t.zero, t.zero) && t.UnitAt(t.zero) && t.UnitAt(t.step(t.zero));
    } else {
      MulIsIter(t, g, a);
      assert t.LogAt(a);
      var i := t.log(a);
      ExpIsIter(t, i);
      IterAdd(t.step, i, 1, t.one);
      IterAdd(t.step, 1, i, t.one);
      assert Iter(t.step, 1, t.one) == t.step(Iter(t.step, 0, t.one)) == g;
      assert Iter(t.step, 1, a) == t.step(Iter(t.step, 0, a)) == t.step(a);
    }
  }
}
