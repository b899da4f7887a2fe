/** SQL values and the row-set operators the dashboard queries are built from:
    NULL, NULLIF, ROUND, SUM, COUNT, AVG, WHERE, GROUP BY, UNION ALL and LIMIT. */
module Sql {

  /** A nullable column value; `None` is SQL NULL. */
  datatype Option<+T> = None | Some(value: T)

  function Min(a: int, b: int): int { if a <= b then a else b }

  /** `x / y` where the divisor cannot be zero. */
  function Divide(x: real, y: real): (r: real)
    requires y != 0.0
    ensures r * y == x
  {
    x / y
  }

  /** `x / NULLIF(y, 0)`: NULL when the divisor is zero, so the quotient is NULL instead of a division error. */
  function DivideOrNull(x: real, y: real): (r: Option<real>)
    ensures r.None? <==> y == 0.0
    ensures r.Some? ==> r.value * y == x
  {
    if y == 0.0 then None else Some(x / y)
  }

  /** Rounding half away from zero to a whole number, as ROUND does on numeric values. */
  function HalfAwayFromZero(y: real): (h: int)
    ensures y >= 0.0 ==> h >= 0 && h as real - 0.5 <= y < h as real + 0.5
    ensures y < 0.0 ==> h <= 0 && h as real - 0.5 < y <= h as real + 0.5
  {
    if y >= 0.0 then (y + 0.5).Floor else -((0.5 - y).Floor)
  }

  /** `a > b` in SQL's three-valued logic: unknown (NULL) when either side is NULL. */
  function Greater(a: Option<real>, b: Option<real>): (r: Option<bool>)
    ensures r.None? <==> a.None? || b.None?
    ensures r == Some(true) <==> a.Some? && b.Some? && a.value > b.value
  {
    if a.None? || b.None? then None else Some(a.value > b.value)
  }

  /** ROUND(x, 2): the nearest multiple of 0.01, halves away from zero. */
  function Round2(x: real): (r: real)
    ensures r * 100.0 == HalfAwayFromZero(x * 100.0) as real
    ensures -0.005 <= r - x <= 0.005
  {
    HalfAwayFromZero(x * 100.0) as real / 100.0
  }

  /** The difference of two values already rounded to two places has at most two places, so
      rounding it again changes nothing. */
  lemma Round2Difference(a: real, b: real)
    ensures Round2(Round2(a) - Round2(b)) == Round2(a) - Round2(b)
  {
    var ha := HalfAwayFromZero(a * 100.0);
    var hb := HalfAwayFromZero(b * 100.0);
    assert Round2(a) - Round2(b) == (ha - hb) as real / 100.0;
    Round2Exact(ha - hb);
  }

  /** ROUND(x, 3): the nearest multiple of 0.001, halves away from zero. */
  function Round3(x: real): (r: real)
    ensures r * 1000.0 == HalfAwayFromZero(x * 1000.0) as real
    ensures -0.0005 <= r - x <= 0.0005
  {
    HalfAwayFromZero(x * 1000.0) as real / 1000.0
  }

  /** Rounding keeps order (ties may merge). */
  lemma RoundMonotone(x: real, y: real)
    requires x <= y
    ensures HalfAwayFromZero(x) <= HalfAwayFromZero(y)
    ensures Round2(x) <= Round2(y) && Round3(x) <= Round3(y)
  {
    assert HalfAwayFromZero(x * 100.0) <= HalfAwayFromZero(y * 100.0);
    assert HalfAwayFromZero(x * 1000.0) <= HalfAwayFromZero(y * 1000.0);
  }

  /** A value that already has two decimal places is left as it is. */
  lemma Round2Exact(h: int)
    ensures Round2(h as real / 100.0) == h as real / 100.0
  {
    var x := h as real / 100.0;
    assert x * 100.0 == h as real;
    HalfAwayFromZeroWhole(h);
  }

  lemma HalfAwayFromZeroWhole(h: int)
    ensures HalfAwayFromZero(h as real) == h
  {
  }

  /** SUM over a column of integers; 0 for no rows. */
  function SumInt(xs: seq<int>): int
  {
    if |xs| == 0 then 0 else SumInt(xs[..|xs| - 1]) + xs[|xs| - 1]
  }

  /** SUM over a column of values. */
  function Total(xs: seq<real>): real
  {
    if |xs| == 0 then 0.0 else Total(xs[..|xs| - 1]) + xs[|xs| - 1]
  }

  /** The non-NULL values of a column, in order: what SUM and AVG aggregate. */
  function Values(xs: seq<Option<real>>): (r: seq<real>)
    ensures |r| <= |xs|
    ensures (forall i :: 0 <= i < |xs| ==> xs[i].Some?) ==>
      |r| == |xs| && forall i :: 0 <= i < |r| ==> r[i] == xs[i].value
  {
    if |xs| == 0 then []
    else
      var init := Values(xs[..|xs| - 1]);
      match xs[|xs| - 1]
      case None => init
      case Some(v) => init + [v]
  }

  /** The values kept are exactly those of the non-NULL entries. */
  lemma {:induction false} ValuesMembers(xs: seq<Option<real>>, v: real)
    ensures v in Values(xs) <==> Some(v) in xs
  {
    if |xs| > 0 {
      var init := xs[..|xs| - 1];
      ValuesMembers(init, v);
      assert xs == init + [xs[|xs| - 1]];
    }
  }

  /** The non-NULL values of two stretches of a column, one after the other. */
  lemma {:induction false} ValuesAppend(a: seq<Option<real>>, b: seq<Option<real>>)
    ensures Values(a + b) == Values(a) + Values(b)
  {
    if |b| > 0 {
      var init := b[..|b| - 1];
      ValuesAppend(a, init);
      assert (a + b)[..|a + b| - 1] == a + init;
    } else {
      assert a + b == a;
    }
  }

  /** AVG over a column without NULLs: NULL for no rows, otherwise the exact mean. */
  function Avg(xs: seq<real>): (r: Option<real>)
    ensures r.Some? <==> |xs| > 0
    ensures r.Some? ==> r.value * |xs| as real == Total(xs)
  {
    if |xs| == 0 then None else Some(Total(xs) / |xs| as real)
  }

  /** The mean lies between the smallest and the largest value. */
  lemma {:induction false} AvgBetween(xs: seq<real>, lo: real, hi: real)
    requires |xs| > 0
    requires forall i :: 0 <= i < |xs| ==> lo <= xs[i] <= hi
    ensures lo <= Avg(xs).value <= hi
  {
    TotalBounds(xs, lo, hi);
    var n := |xs| as real;
    assert Avg(xs).value * n == Total(xs);
  }

  lemma {:induction false} TotalBounds(xs: seq<real>, lo: real, hi: real)
    requires forall i :: 0 <= i < |xs| ==> lo <= xs[i] <= hi
    ensures lo * |xs| as real <= Total(xs) <= hi * |xs| as real
  {
    if |xs| > 0 {
      TotalBounds(xs[..|xs| - 1], lo, hi);
    }
  }

  /** One column of a set of rows: `f` applied to every row, in order. */
  function Column<T, U>(s: seq<T>, f: T -> U): (r: seq<U>)
    ensures |r| == |s|
    ensures forall i :: 0 <= i < |s| ==> r[i] == f(s[i])
  {
    seq(|s|, i requires 0 <= i < |s| => f(s[i]))
  }

  /** WHERE p: the rows that satisfy `p`, in their original order. */
  function Filter<T(!new)>(s: seq<T>, p: T -> bool): (r: seq<T>)
    ensures |r| <= |s|
    ensures forall x :: x in r <==> x in s && p(x)
    ensures forall i :: 0 <= i < |r| ==> p(r[i])
    ensures (forall i, j :: 0 <= i < j < |s| ==> s[i] != s[j]) ==>
      forall i, j :: 0 <= i < j < |r| ==> r[i] != r[j]
  {
    if |s| == 0 then []
    else Filter(s[..|s| - 1], p) + (if p(s[|s| - 1]) then [s[|s| - 1]] else [])
  }

  /** WHERE over two stretches of rows, one after the other: the survivors keep their order. */
  lemma {:induction false} FilterAppend<T(!new)>(a: seq<T>, b: seq<T>, p: T -> bool)
    ensures Filter(a + b, p) == Filter(a, p) + Filter(b, p)
  {
    if |b| > 0 {
      var init, x := b[..|b| - 1], b[|b| - 1];
      var kept := if p(x) then [x] else [];
      assert b == init + [x];
      calc {
        Filter(a + b, p);
        { assert a + b == (a + init) + [x]; }
        Filter((a + init) + [x], p);
        { FilterSnoc(a + init, x, p); }
        Filter(a + init, p) + kept;
        { FilterAppend(a, init, p); }
        Filter(a, p) + Filter(init, p) + kept;
        Filter(a, p) + (Filter(init, p) + kept);
        { FilterSnoc(init, x, p); }
        Filter(a, p) + Filter(b, p);
      }
    } else {
      assert a + b == a;
    }
  }

  lemma FilterSnoc<T(!new)>(s: seq<T>, x: T, p: T -> bool)
    ensures Filter(s + [x], p) == Filter(s, p) + (if p(x) then [x] else [])
  {
    assert (s + [x])[..|s|] == s;
  }

  /** A second WHERE that implies the first makes the first redundant. */
  lemma {:induction false} FilterNarrower<T(!new)>(s: seq<T>, p: T -> bool, q: T -> bool)
    requires forall x :: q(x) ==> p(x)
    ensures Filter(Filter(s, p), q) == Filter(s, q)
  {
    if |s| > 0 {
      var init := s[..|s| - 1];
      FilterNarrower(init, p, q);
      FilterAppend(Filter(init, p), if p(s[|s| - 1]) then [s[|s| - 1]] else [], q);
    }
  }

  /** A WHERE that every row passes keeps them all. */
  lemma {:induction false} FilterKeepsAll<T(!new)>(s: seq<T>, p: T -> bool)
    requires forall i :: 0 <= i < |s| ==> p(s[i])
    ensures Filter(s, p) == s
  {
    if |s| > 0 {
      var init := s[..|s| - 1];
      assert s == init + [s[|s| - 1]];
      FilterKeepsAll(init, p);
    }
  }

  /** A WHERE that only the last row fails drops just that row. */
  lemma FilterDropsLast<T(!new)>(s: seq<T>, p: T -> bool)
    requires |s| > 0 && !p(s[|s| - 1])
    requires forall i :: 0 <= i < |s| - 1 ==> p(s[i])
    ensures Filter(s, p) == s[..|s| - 1]
  {
    FilterKeepsAll(s[..|s| - 1], p);
  }

  /** COUNT(*) of the rows whose `key` is `k`. */
  function CountWhere<T, K(==)>(s: seq<T>, key: T -> K, k: K): (c: nat)
    ensures c <= |s|
  {
    if |s| == 0 then 0
    else CountWhere(s[..|s| - 1], key, k) + (if key(s[|s| - 1]) == k then 1 else 0)
  }

  /** A condition that every row meeting `p` also meets is met by at least as many rows. */
  lemma {:induction false} CountWhereMonotone<T>(s: seq<T>, p: T -> bool, q: T -> bool)
    requires forall i :: 0 <= i < |s| && p(s[i]) ==> q(s[i])
    ensures CountWhere(s, p, true) <= CountWhere(s, q, true)
  {
    if |s| > 0 {
      CountWhereMonotone(s[..|s| - 1], p, q);
    }
  }

  /** A condition that every row meets counts every row. */
  lemma {:induction false} CountWhereAll<T>(s: seq<T>, p: T -> bool)
    requires forall i :: 0 <= i < |s| ==> p(s[i])
    ensures CountWhere(s, p, true) == |s|
  {
    if |s| > 0 {
      CountWhereAll(s[..|s| - 1], p);
    }
  }

  /** A key is counted only if some row carries it. */
  lemma {:induction false} CountWherePositive<T, K>(s: seq<T>, key: T -> K, k: K)
    ensures CountWhere(s, key, k) > 0 <==> exists x :: x in s && key(x) == k
  {
    if |s| > 0 {
      var init := s[..|s| - 1];
      CountWherePositive(init, key, k);
      if exists x :: x in s && key(x) == k {
        var x :| x in s && key(x) == k;
        if x != s[|s| - 1] {
          assert x in init;
        }
      }
      if exists x :: x in init && key(x) == k {
        var x :| x in init && key(x) == k;
        assert x in s;
      }
    }
  }

  lemma {:induction false} FilterCount<T(!new), K>(s: seq<T>, p: T -> bool, key: T -> K, k: K)
    requires forall x :: p(x) <==> key(x) == k
    ensures |Filter(s, p)| == CountWhere(s, key, k)
  {
    if |s| > 0 {
      FilterCount(s[..|s| - 1], p, key, k);
    }
  }

  /** The distinct values of a GROUP BY column, in order of first appearance. */
  function Distinct<K(==,!new)>(s: seq<K>): (r: seq<K>)
    ensures forall x :: x in r <==> x in s
    ensures forall i, j :: 0 <= i < j < |r| ==> r[i] != r[j]
  {
    if |s| == 0 then []
    else
      var p := Distinct(s[..|s| - 1]);
      if s[|s| - 1] in p then p else p + [s[|s| - 1]]
  }

  /** The condition `key(x) = k`. */
  function KeyIs<T, K(==)>(key: T -> K, k: K): T -> bool
  {
    x => key(x) == k
  }

  /** WHERE key = k, in the original order. */
  function RowsWithKey<T(!new), K(==)>(s: seq<T>, key: T -> K, k: K): (r: seq<T>)
    ensures |r| == CountWhere(s, key, k)
    ensures forall x :: x in r <==> x in s && key(x) == k
  {
    FilterCount(s, KeyIs(key, k), key, k);
    Filter(s, KeyIs(key, k))
  }

  /** One group of GROUP BY: its key and its rows. */
  datatype Group<K, T> = Group(key: K, rows: seq<T>)

  /** GROUP BY key: one group per distinct key, in order of first appearance, holding the
      rows with that key in their original order. */
  function GroupBy<T(!new), K(==,!new)>(s: seq<T>, key: T -> K): (gs: seq<Group<K, T>>)
    ensures forall i :: 0 <= i < |gs| ==> |gs[i].rows| > 0
    ensures forall i :: 0 <= i < |gs| ==> forall x :: x in gs[i].rows <==> x in s && key(x) == gs[i].key
    ensures forall i, j :: 0 <= i < j < |gs| ==> gs[i].key != gs[j].key
    ensures forall i :: 0 <= i < |gs| ==> |gs[i].rows| == CountWhere(s, key, gs[i].key)
    ensures forall i :: 0 <= i < |gs| ==> gs[i].rows == RowsWithKey(s, key, gs[i].key)
  {
    var ks := Distinct(Column(s, key));
    var gs := seq(|ks|, i requires 0 <= i < |ks| => Group(ks[i], RowsWithKey(s, key, ks[i])));
    forall i | 0 <= i < |gs| ensures |gs[i].rows| > 0 {
      assert ks[i] in Column(s, key);
      var j :| 0 <= j < |s| && Column(s, key)[j] == ks[i];
      assert s[j] in gs[i].rows;
    }
    gs
  }

  /** A key has a group exactly when some row carries it. */
  lemma GroupByKeys<T(!new), K(!new)>(s: seq<T>, key: T -> K, k: K)
    ensures (exists i :: 0 <= i < |GroupBy(s, key)| && GroupBy(s, key)[i].key == k) <==> CountWhere(s, key, k) > 0
  {
    var gs := GroupBy(s, key);
    if exists i :: 0 <= i < |gs| && gs[i].key == k {
      var i :| 0 <= i < |gs| && gs[i].key == k;
      assert |gs[i].rows| == CountWhere(s, key, k);
    }
    if CountWhere(s, key, k) > 0 {
      GroupOfKey(s, key, k);
    }
  }

  /** Every row falls in the group of its key. */
  lemma GroupByCovers<T(!new), K(!new)>(s: seq<T>, key: T -> K, x: T)
    requires x in s
    ensures exists i :: 0 <= i < |GroupBy(s, key)| && GroupBy(s, key)[i].key == key(x)
  {
    var ks := Distinct(Column(s, key));
    var j :| 0 <= j < |s| && s[j] == x;
    assert key(x) in Column(s, key);
    var i :| 0 <= i < |ks| && ks[i] == key(x);
    assert GroupBy(s, key)[i].key == key(x);
  }

  /** HAVING COUNT(*) >= n: the groups with at least n rows, in their order; keys stay
      distinct. */
  function HavingAtLeast<K(!new), T(!new)>(gs: seq<Group<K, T>>, n: nat): (r: seq<Group<K, T>>)
    requires forall i, j :: 0 <= i < j < |gs| ==> gs[i].key != gs[j].key
    ensures forall g :: g in r <==> g in gs && |g.rows| >= n
    ensures forall i, j :: 0 <= i < j < |r| ==> r[i].key != r[j].key
  {
    if |gs| == 0 then []
    else
      var init := HavingAtLeast(gs[..|gs| - 1], n);
      var g := gs[|gs| - 1];
      if |g.rows| >= n then
        assert forall i :: 0 <= i < |init| ==> init[i].key != g.key by {
          forall i | 0 <= i < |init| ensures init[i].key != g.key {
            assert init[i] in gs[..|gs| - 1];
          }
        }
        init + [g]
      else init
  }

  /** A key with at least n > 0 rows survives GROUP BY ... HAVING COUNT(*) >= n. */
  lemma HavingKeeps<T(!new), K(!new)>(s: seq<T>, key: T -> K, n: nat, k: K)
    requires n > 0 && CountWhere(s, key, k) >= n
    ensures exists i :: 0 <= i < |HavingAtLeast(GroupBy(s, key), n)| && HavingAtLeast(GroupBy(s, key), n)[i].key == k
  {
    var gs := GroupBy(s, key);
    var kept := HavingAtLeast(gs, n);
    GroupOfKey(s, key, k);
    var j :| 0 <= j < |gs| && gs[j].key == k;
    assert gs[j] in kept;
    var i :| 0 <= i < |kept| && kept[i] == gs[j];
  }

  /** A key that some row carries has its group. */
  lemma GroupOfKey<T(!new), K(!new)>(s: seq<T>, key: T -> K, k: K)
    requires CountWhere(s, key, k) > 0
    ensures exists j :: 0 <= j < |GroupBy(s, key)| && GroupBy(s, key)[j].key == k
  {
    CountWherePositive(s, key, k);
    var x :| x in s && key(x) == k;
    GroupByCovers(s, key, x);
  }

  /** UNION ALL of a sequence of row sets, in order. */
  function Flatten<T(!new)>(ss: seq<seq<T>>): (r: seq<T>)
    ensures forall x :: x in r <==> exists j :: 0 <= j < |ss| && x in ss[j]
    ensures |ss| == 1 ==> r == ss[0]
  {
    if |ss| == 0 then []
    else
      var r := Flatten(ss[..|ss| - 1]) + ss[|ss| - 1];
      assert forall x :: x in r <==> exists j :: 0 <= j < |ss| && x in ss[j] by {
        forall x ensures x in r <==> exists j :: 0 <= j < |ss| && x in ss[j] {
          if x in ss[|ss| - 1] {
            assert x in r;
          }
          if x in r && x !in ss[|ss| - 1] {
            assert x in Flatten(ss[..|ss| - 1]);
            var j :| 0 <= j < |ss| - 1 && x in ss[..|ss| - 1][j];
            assert x in ss[j];
          }
          if exists j :: 0 <= j < |ss| && x in ss[j] {
            var j :| 0 <= j < |ss| && x in ss[j];
            if j < |ss| - 1 {
              assert x in ss[..|ss| - 1][j];
            }
          }
        }
      }
      r
  }

  /** UNION ALL is associative: the rows of earlier sets come first, each set's rows in
      their own order. */
  lemma {:induction false} FlattenAppend<T(!new)>(a: seq<seq<T>>, b: seq<seq<T>>)
    ensures Flatten(a + b) == Flatten(a) + Flatten(b)
  {
    if |b| > 0 {
      var init := b[..|b| - 1];
      FlattenAppend(a, init);
      assert (a + b)[..|a + b| - 1] == a + init;
      assert Flatten(b) == Flatten(init) + b[|b| - 1];
    } else {
      assert a + b == a;
    }
  }

  /** The same WHERE applied to each row set of a sequence. */
  function FilterEach<T(!new)>(ss: seq<seq<T>>, p: T -> bool): (r: seq<seq<T>>)
    ensures |r| == |ss|
    ensures forall j :: 0 <= j < |ss| ==> r[j] == Filter(ss[j], p)
  {
    seq(|ss|, j requires 0 <= j < |ss| => Filter(ss[j], p))
  }

  /** WHERE after UNION ALL is UNION ALL of the WHEREs: the surviving rows keep both the
      order of the sets and each set's own order. */
  lemma {:induction false} FilterFlatten<T(!new)>(ss: seq<seq<T>>, p: T -> bool)
    ensures Filter(Flatten(ss), p) == Flatten(FilterEach(ss, p))
  {
    if |ss| > 0 {
      var init, last := ss[..|ss| - 1], ss[|ss| - 1];
      FilterFlatten(init, p);
      FilterAppend(Flatten(init), last, p);
      assert FilterEach(ss, p)[..|ss| - 1] == FilterEach(init, p);
      assert Flatten(ss) == Flatten(init) + last;
      assert Flatten(FilterEach(ss, p)) == Flatten(FilterEach(init, p)) + Filter(last, p);
    }
  }

  /** LIMIT n: the first n rows, or all of them when there are fewer. */
  function Limit<T>(s: seq<T>, n: nat): (r: seq<T>)
    ensures |r| == Min(n, |s|)
    ensures r == s[..|r|]
  {
    if |s| <= n then s else s[..n]
  }
}
