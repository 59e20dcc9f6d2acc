// Small shared vocabulary: optional values, results, and sums over finite sets of keys.

module Prelude {

  datatype Option<+T> = None | Some(value: T)

  datatype Result<+T, +E> = Ok(value: T) | Err(error: E)

  lemma {:induction false} SubsetSize<T>(a: set<T>, b: set<T>)
    requires a <= b
    ensures |a| <= |b|
    decreases |a|
  {
    if a != {} {
      var x :| x in a;
      SubsetSize(a - {x}, b - {x});
    }
  }
}

/** Sums of an integer-valued function over a finite set of keys. Python adds up dictionary values in
    insertion order; an order-free sum is what every such loop computes. */
module FiniteSums {

  ghost function Sum<K(!new)>(keys: set<K>, f: K -> int): int
    decreases |keys|
  {
    if keys == {} then 0 else
      var k :| k in keys;
      f(k) + Sum(keys - {k}, f)
  }

  lemma SumEmpty<K(!new)>(f: K -> int)
    ensures Sum({}, f) == 0
  {
  }

  // Any key may be taken out first.
  lemma {:induction false} SumRemove<K(!new)>(keys: set<K>, f: K -> int, k: K)
    requires k in keys
    ensures Sum(keys, f) == f(k) + Sum(keys - {k}, f)
    decreases |keys|
  {
    var first :| first in keys && Sum(keys, f) == f(first) + Sum(keys - {first}, f);
    if first != k {
      SumRemove(keys - {first}, f, k);
      SumRemove(keys - {k}, f, first);
      assert keys - {first} - {k} == keys - {k} - {first};
    }
  }

  lemma {:induction false} SumInsert<K(!new)>(keys: set<K>, f: K -> int, k: K)
    requires k !in keys
    ensures Sum(keys + {k}, f) == Sum(keys, f) + f(k)
  {
    SumRemove(keys + {k}, f, k);
    assert keys + {k} - {k} == keys;
  }

  lemma {:induction false} SumAgrees<K(!new)>(keys: set<K>, f: K -> int, g: K -> int)
    requires forall k :: k in keys ==> f(k) == g(k)
    ensures Sum(keys, f) == Sum(keys, g)
    decreases |keys|
  {
    if keys != {} {
      var k :| k in keys;
      SumRemove(keys, f, k);
      SumRemove(keys, g, k);
      SumAgrees(keys - {k}, f, g);
    }
  }

  lemma {:induction false} SumBelow<K(!new)>(keys: set<K>, f: K -> int, g: K -> int)
    requires forall k :: k in keys ==> f(k) <= g(k)
    ensures Sum(keys, f) <= Sum(keys, g)
    decreases |keys|
  {
    if keys != {} {
      var k :| k in keys;
      SumRemove(keys, f, k);
      SumRemove(keys, g, k);
      SumBelow(keys - {k}, f, g);
    }
  }

  // Keys that contribute nothing can be dropped.
  lemma {:induction false} SumRestrict<K(!new)>(keys: set<K>, kept: set<K>, f: K -> int)
    requires kept <= keys
    requires forall k :: k in keys && k !in kept ==> f(k) == 0
    ensures Sum(keys, f) == Sum(kept, f)
    decreases |keys|
  {
    if k :| k in keys && k !in kept {
      SumRemove(keys, f, k);
      SumRestrict(keys - {k}, kept, f);
    } else {
      assert keys == kept;
    }
  }
}
