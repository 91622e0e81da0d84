/**
 Sparse maps read with a default for missing keys (what the source gets from
 Python's `defaultdict` and from `d[k] if k in d else …`), and order-free sums
 of a map's values over a set of its keys.
 */
module SparseMaps {

  /** The value stored at k, or d when k is absent: a `defaultdict` read, without the insertion. */
  function GetOr<K, V>(m: map<K, V>, k: K, d: V): V
  {
    if k in m then m[k] else d
  }

  /* ---------------------------------------------------------------- reals */

  /** Two maps with the same keys and the same values are equal. */
  lemma MapsEqual<K, V>(a: map<K, V>, b: map<K, V>)
    requires forall k :: k in a <==> k in b
    requires forall k :: k in a ==> a[k] == b[k]
    ensures a == b
  {
  }

  /** The sum of m's values at the keys ks, in no particular order. */
  ghost function SumReal<K>(ks: set<K>, m: map<K, real>): real
    requires ks <= m.Keys
    decreases |ks|
  {
    if ks == {} then 0.0 else var k :| k in ks; m[k] + SumReal(ks - {k}, m)
  }

  /** Any key can be taken out of the sum first. */
  lemma SumRealRemove<K>(ks: set<K>, m: map<K, real>, k: K)
    requires k in ks && ks <= m.Keys
    ensures SumReal(ks, m) == m[k] + SumReal(ks - {k}, m)
    decreases |ks|
  {
    var x :| x in ks && SumReal(ks, m) == m[x] + SumReal(ks - {x}, m);
    if x != k {
      SumRealRemove(ks - {x}, m, k);
      SumRealRemove(ks - {k}, m, x);
      assert ks - {x} - {k} == ks - {k} - {x};
    }
  }

  /** The sum only depends on the values at the summed keys. */
  lemma SumRealFrame<K>(ks: set<K>, m: map<K, real>, m': map<K, real>)
    requires ks <= m.Keys && ks <= m'.Keys
    requires forall k :: k in ks ==> m[k] == m'[k]
    ensures SumReal(ks, m) == SumReal(ks, m')
    decreases |ks|
  {
    if ks != {} {
      var k :| k in ks;
      SumRealRemove(ks, m, k);
      SumRealRemove(ks, m', k);
      SumRealFrame(ks - {k}, m, m');
    }
  }

  /** Writing v at key k changes the sum by the difference at k, or adds v when k is new. */
  lemma SumRealUpdate<K>(ks: set<K>, m: map<K, real>, k: K, v: real)
    requires ks <= m.Keys
    ensures k in ks ==> SumReal(ks, m[k := v]) == SumReal(ks, m) - m[k] + v
    ensures k !in ks ==> SumReal(ks, m[k := v]) == SumReal(ks, m)
    ensures k !in ks ==> SumReal(ks + {k}, m[k := v]) == SumReal(ks, m) + v
  {
    var m' := m[k := v];
    if k in ks {
      SumRealRemove(ks, m, k);
      SumRealRemove(ks, m', k);
      SumRealFrame(ks - {k}, m, m');
    } else {
      SumRealFrame(ks, m, m');
      SumRealRemove(ks + {k}, m', k);
      assert ks + {k} - {k} == ks;
    }
  }

  /** Dividing every summed value by d divides the sum by d. */
  lemma SumRealScale<K>(ks: set<K>, m: map<K, real>, m': map<K, real>, d: real)
    requires ks <= m.Keys && ks <= m'.Keys && d != 0.0
    requires forall k :: k in ks ==> m'[k] == m[k] / d
    ensures SumReal(ks, m') == SumReal(ks, m) / d
    decreases |ks|
  {
    if ks != {} {
      var k :| k in ks;
      SumRealRemove(ks, m, k);
      SumRealRemove(ks, m', k);
      SumRealScale(ks - {k}, m, m', d);
      DivAdd(m[k], SumReal(ks - {k}, m), d);
    } else {
      DivZero(d);
    }
  }

  /** Division distributes over addition. */
  lemma DivAdd(a: real, b: real, d: real)
    requires d != 0.0
    ensures a / d + b / d == (a + b) / d
  {
    assert (a / d) * d == a;
    assert (b / d) * d == b;
    assert (a / d + b / d) * d == a + b;
  }

  lemma DivZero(z: real)
    requires z != 0.0
    ensures 0.0 / z == 0.0
  {
    assert (0.0 / z) * z == 0.0;
  }

  lemma DivSelf(z: real)
    requires z != 0.0
    ensures z / z == 1.0
  {
  }

  lemma DivPositive(a: real, d: real)
    requires 0.0 < a && 0.0 < d
    ensures 0.0 < a / d
  {
    assert (a / d) * d == a;
  }

  lemma DivAtMostOne(a: real, d: real)
    requires 0.0 < a <= d
    ensures 0.0 < a / d <= 1.0
  {
    assert (a / d) * d == a;
  }

  /** A sum of positive values is positive and at least each of its terms. */
  lemma SumRealPositive<K>(ks: set<K>, m: map<K, real>)
    requires ks <= m.Keys
    requires forall k :: k in ks ==> m[k] > 0.0
    ensures ks != {} ==> SumReal(ks, m) > 0.0
    ensures forall k :: k in ks ==> m[k] <= SumReal(ks, m)
    decreases |ks|
  {
    if ks != {} {
      forall k | k in ks
        ensures m[k] <= SumReal(ks, m) && SumReal(ks, m) > 0.0
      {
        SumRealRemove(ks, m, k);
        SumRealPositive(ks - {k}, m);
      }
    }
  }

  /* ------------------------------------------------------------- integers */

  /** The sum of m's values at the keys ks, in no particular order. */
  ghost function SumInt<K>(ks: set<K>, m: map<K, int>): int
    requires ks <= m.Keys
    decreases |ks|
  {
    if ks == {} then 0 else var k :| k in ks; m[k] + SumInt(ks - {k}, m)
  }

  /** Any key can be taken out of the sum first. */
  lemma SumIntRemove<K>(ks: set<K>, m: map<K, int>, k: K)
    requires k in ks && ks <= m.Keys
    ensures SumInt(ks, m) == m[k] + SumInt(ks - {k}, m)
    decreases |ks|
  {
    var x :| x in ks && SumInt(ks, m) == m[x] + SumInt(ks - {x}, m);
    if x != k {
      SumIntRemove(ks - {x}, m, k);
      SumIntRemove(ks - {k}, m, x);
      assert ks - {x} - {k} == ks - {k} - {x};
    }
  }

  /** Adding a new key k to the summed keys adds m[k]. */
  lemma SumIntAdd<K>(ks: set<K>, m: map<K, int>, k: K)
    requires ks <= m.Keys && k in m && k !in ks
    ensures SumInt(ks + {k}, m) == SumInt(ks, m) + m[k]
  {
    SumIntRemove(ks + {k}, m, k);
    assert ks + {k} - {k} == ks;
  }

  /** The sum only depends on the values at the summed keys. */
  lemma SumIntFrame<K>(ks: set<K>, m: map<K, int>, m': map<K, int>)
    requires ks <= m.Keys && ks <= m'.Keys
    requires forall k :: k in ks ==> m[k] == m'[k]
    ensures SumInt(ks, m) == SumInt(ks, m')
    decreases |ks|
  {
    if ks != {} {
      var k :| k in ks;
      SumIntRemove(ks, m, k);
      SumIntRemove(ks, m', k);
      SumIntFrame(ks - {k}, m, m');
    }
  }

  /** The sum of all of m's values. */
  ghost function Total<K>(m: map<K, int>): int
  {
    SumInt(m.Keys, m)
  }

  /** Adding d to the value at k (0 when absent) adds d to the total. */
  lemma TotalBump<K>(m: map<K, int>, k: K, d: int)
    ensures Total(m[k := GetOr(m, k, 0) + d]) == Total(m) + d
  {
    var m' := m[k := GetOr(m, k, 0) + d];
    if k in m {
      assert m'.Keys == m.Keys;
      SumIntRemove(m.Keys, m, k);
      SumIntRemove(m.Keys, m', k);
      SumIntFrame(m.Keys - {k}, m, m');
    } else {
      assert m'.Keys == m.Keys + {k};
      assert m'.Keys - {k} == m.Keys;
      SumIntRemove(m'.Keys, m', k);
      SumIntFrame(m.Keys, m, m');
    }
  }

  /** Dividing every value by a non-zero d divides the total by d (in exact arithmetic). */
  lemma SumIntToReal<K>(ks: set<K>, m: map<K, int>, a: map<K, real>, d: real)
    requires ks <= m.Keys && ks <= a.Keys && d != 0.0
    requires forall k :: k in ks ==> a[k] == m[k] as real / d
    ensures SumReal(ks, a) == SumInt(ks, m) as real / d
    decreases |ks|
  {
    if ks != {} {
      var k :| k in ks;
      SumIntRemove(ks, m, k);
      SumRealRemove(ks, a, k);
      SumIntToReal(ks - {k}, m, a, d);
      DivAdd(m[k] as real, SumInt(ks - {k}, m) as real, d);
    } else {
      DivZero(d);
    }
  }
}
