/** Finite sums: the real-valued `sum(...)` of the values of a map, which
    both PageRank computations and the mass arguments about them are stated
    with. A summand is a map from the summation index to its value. */
module SetSum {

  /** The sum of the values of `m`. */
  ghost function Sum<K>(m: map<K, real>): real
    decreases m.Keys
  {
    if m == map[] then 0.0
    else
      var x :| x in m;
      m[x] + Sum(m - {x})
  }

  /** One value per element of `keys`, adding up to exactly 1: a
      probability distribution over `keys`. */
  ghost predicate Distribution<K>(keys: set<K>, m: map<K, real>) {
    m.Keys == keys && Sum(m) == 1.0
  }

  /** Moving `x` from the unvisited part of `all` to the visited part keeps
      `all` partitioned. */
  lemma Visit<K>(todo: set<K>, done: set<K>, all: set<K>, x: K)
    requires todo + done == all && todo !! done && x in todo
    ensures (todo - {x}) + (done + {x}) == all && (todo - {x}) !! (done + {x})
  {
  }

  /** Any entry can be taken out first. */
  lemma {:induction false} SumRemove<K>(m: map<K, real>, y: K)
    requires y in m
    ensures Sum(m) == m[y] + Sum(m - {y})
    decreases m.Keys
  {
    var x :| x in m && Sum(m) == m[x] + Sum(m - {x});
    if x != y {
      SumRemove(m - {x}, y);
      SumRemove(m - {y}, x);
      assert m - {x} - {y} == m - {y} - {x};
    }
  }

  /** Setting the entry for `y` to `v` replaces whatever `y` held by `v`. */
  lemma SumUpdate<K>(m: map<K, real>, y: K, v: real)
    ensures Sum(m[y := v]) == Sum(m - {y}) + v
  {
    SumRemove(m[y := v], y);
    assert m[y := v] - {y} == m - {y};
  }

  /** The product `c * v`, and nothing else: it exists only to guide the
      proofs, letting the solver match a product by its factors instead of
      reasoning about nonlinear arithmetic. */
  function Times(c: real, v: real): real {
    c * v
  }

  /** A factor `c >= 0` keeps the order of non-negative values. */
  lemma TimesBounds(c: real, a: real, b: real)
    requires 0.0 <= c && 0.0 <= a <= b
    ensures 0.0 <= Times(c, a) <= Times(c, b)
  {
    assert Times(c, b) - Times(c, a) == c * (b - a);
  }

  /** `k` times the `k`-th part of `a` is `a`. */
  lemma TimesQuotient(k: real, a: real)
    requires k != 0.0
    ensures Times(k, a / k) == a
  {
  }

  /** Entries that all hold `c` sum to `|m| * c`. */
  lemma {:induction false} SumConst<K>(m: map<K, real>, c: real)
    requires forall x :: x in m ==> m[x] == c
    ensures Sum(m) == Times(|m| as real, c)
    decreases m.Keys
  {
    if m != map[] {
      var x :| x in m;
      var m' := m - {x};
      SumRemove(m, x);
      SumConst(m', c);
      assert m'.Keys == m.Keys - {x};
      ConstStep(c, |m'| as real, Sum(m'), |m| as real, Sum(m));
    }
  }

  /** One step of `SumConst`: one more entry `c` adds `c` to the sum. */
  lemma ConstStep(c: real, k: real, s: real, n: real, s': real)
    requires n == k + 1.0 && s' == c + s && s == Times(k, c)
    ensures s' == Times(n, c)
  {
  }

  /** The sum of a pointwise sum is the sum of the sums. */
  lemma {:induction false} SumAdd<K>(f: map<K, real>, g: map<K, real>, h: map<K, real>)
    requires f.Keys == h.Keys && g.Keys == h.Keys
    requires forall x :: x in h ==> h[x] == f[x] + g[x]
    ensures Sum(h) == Sum(f) + Sum(g)
    decreases h.Keys
  {
    if h != map[] {
      var x :| x in h;
      SumRemove(f, x);
      SumRemove(g, x);
      SumRemove(h, x);
      SumAdd(f - {x}, g - {x}, h - {x});
    }
  }

  /** A constant factor comes out of the sum. */
  lemma {:induction false} SumScale<K>(f: map<K, real>, g: map<K, real>, c: real)
    requires f.Keys == g.Keys
    requires forall x :: x in g ==> g[x] == Times(c, f[x])
    ensures Sum(g) == Times(c, Sum(f))
    decreases g.Keys
  {
    if g != map[] {
      var x :| x in g;
      var f', g' := f - {x}, g - {x};
      SumRemove(f, x);
      SumRemove(g, x);
      forall y | y in g' ensures g'[y] == Times(c, f'[y]) {
        assert g'[y] == g[y] && f'[y] == f[y];
      }
      SumScale(f', g', c);
      ScaleStep(c, f[x], Sum(f'), Sum(f), g[x], Sum(g'), Sum(g));
    } else {
      assert f == map[];
    }
  }

  /** One step of `SumScale`: if `a` and `b` scale to `a'` and `b'`, their
      sum `s` scales to `s' == a' + b'`. */
  lemma ScaleStep(c: real, a: real, b: real, s: real, a': real, b': real, s': real)
    requires s == a + b && s' == a' + b'
    requires a' == Times(c, a) && b' == Times(c, b)
    ensures s' == Times(c, s)
  {
  }

  /** Entries that are zero do not contribute: `m` sums to what its part
      `n` sums to when every entry of `m` outside `n` is zero. */
  lemma {:induction false} SumSupport<K>(m: map<K, real>, n: map<K, real>)
    requires n.Keys <= m.Keys
    requires forall x :: x in n ==> n[x] == m[x]
    requires forall x :: x in m && x !in n ==> m[x] == 0.0
    ensures Sum(m) == Sum(n)
    decreases m.Keys
  {
    if m != map[] {
      var x :| x in m;
      SumRemove(m, x);
      if x in n {
        SumRemove(n, x);
        SumSupport(m - {x}, n - {x});
      } else {
        assert n.Keys <= (m - {x}).Keys;
        SumSupport(m - {x}, n);
      }
    }
  }

  /** Non-negative entries have a non-negative sum. */
  lemma {:induction false} SumNonNegative<K>(m: map<K, real>)
    requires forall x :: x in m ==> 0.0 <= m[x]
    ensures 0.0 <= Sum(m)
    decreases m.Keys
  {
    if m != map[] {
      var x :| x in m;
      SumRemove(m, x);
      SumNonNegative(m - {x});
    }
  }

  /** No entry of a map with non-negative entries exceeds its sum. */
  lemma EntryAtMostSum<K>(m: map<K, real>, y: K)
    requires y in m
    requires forall x :: x in m ==> 0.0 <= m[x]
    ensures 0.0 <= m[y] <= Sum(m)
  {
    SumRemove(m, y);
    SumNonNegative(m - {y});
  }
}
