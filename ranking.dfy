/** The ranking window functions of PostgreSQL (section 9.22 of its manual) over one partition
    whose sort keys are given in ORDER BY order: ROW_NUMBER is the 1-based position, and
    RANK, DENSE_RANK, PERCENT_RANK, CUME_DIST and NTILE are defined as the engine computes
    them along the ordered rows and proved equal to their meaning in terms of the keys. */
module Ranking {
  import opened Ordering
  import Sql

  /** How many keys of `ks` are counted against key `x`: those strictly ahead of it (`strict`),
      or those ahead of it or its peers (not `strict`). */
  function Tally(d: Direction, ks: seq<real>, x: real, strict: bool): (c: nat)
    ensures c <= |ks|
  {
    if |ks| == 0 then 0
    else Tally(d, ks[..|ks| - 1], x, strict) + (if Counted(d, ks[|ks| - 1], x, strict) then 1 else 0)
  }

  predicate Counted(d: Direction, y: real, x: real, strict: bool) {
    if strict then Ahead(d, y, x) else !Ahead(d, x, y)
  }

  /** The number of rows whose key sorts strictly ahead of `x`. */
  function CountAhead(d: Direction, ks: seq<real>, x: real): nat {
    Tally(d, ks, x, true)
  }

  /** The number of rows whose key sorts ahead of `x` or is a peer of `x`. */
  function CountThrough(d: Direction, ks: seq<real>, x: real): nat {
    Tally(d, ks, x, false)
  }

  /** The distinct keys that sort strictly ahead of `x`. */
  function DistinctAhead(d: Direction, ks: seq<real>, x: real): set<real> {
    set y | y in ks && Ahead(d, y, x)
  }

  // ---------------------------------------------------------------------------
  // Counting

  lemma {:induction false} TallyAppend(d: Direction, a: seq<real>, b: seq<real>, x: real, strict: bool)
    ensures Tally(d, a + b, x, strict) == Tally(d, a, x, strict) + Tally(d, b, x, strict)
    decreases |b|
  {
    if |b| == 0 {
      assert a + b == a;
    } else {
      assert (a + b)[..|a + b| - 1] == a + b[..|b| - 1];
      TallyAppend(d, a, b[..|b| - 1], x, strict);
    }
  }

  /** A count depends only on the multiset of keys, not on their order. */
  lemma {:induction false} TallyPermutation(d: Direction, a: seq<real>, b: seq<real>, x: real, strict: bool)
    requires multiset(a) == multiset(b)
    ensures Tally(d, a, x, strict) == Tally(d, b, x, strict)
    decreases |a|
  {
    if |a| == 0 {
      assert |b| == |multiset(b)| == 0;
    } else {
      var y := a[|a| - 1];
      var a' := a[..|a| - 1];
      assert a == a' + [y];
      assert y in multiset(b);
      var j :| 0 <= j < |b| && b[j] == y;
      var b' := b[..j] + b[j + 1..];
      MultisetRemove(b, j);
      TallyPermutation(d, a', b', x, strict);
      TallyRemove(d, b, j, x, strict);
    }
  }

  lemma MultisetRemove(b: seq<real>, j: nat)
    requires j < |b|
    ensures multiset(b[..j] + b[j + 1..]) == multiset(b) - multiset{b[j]}
  {
    assert b == b[..j] + [b[j]] + b[j + 1..];
  }

  /** Taking one key out of a sequence lowers the count by one exactly when that key counts. */
  lemma TallyRemove(d: Direction, b: seq<real>, j: nat, x: real, strict: bool)
    requires j < |b|
    ensures Tally(d, b, x, strict) ==
      Tally(d, b[..j] + b[j + 1..], x, strict) + (if Counted(d, b[j], x, strict) then 1 else 0)
  {
    var y := b[j];
    assert b == (b[..j] + [y]) + b[j + 1..];
    TallyAppend(d, b[..j] + [y], b[j + 1..], x, strict);
    TallyAppend(d, b[..j], [y], x, strict);
    TallyAppend(d, b[..j], b[j + 1..], x, strict);
    assert Tally(d, [y], x, strict) == (if Counted(d, y, x, strict) then 1 else 0) by {
      assert [y][..0] == [];
    }
  }

  /** When exactly the first `e` keys are counted, the count is `e`. */
  lemma {:induction false} TallyPrefix(d: Direction, ks: seq<real>, x: real, strict: bool, e: nat)
    requires e <= |ks|
    requires forall j :: 0 <= j < e ==> Counted(d, ks[j], x, strict)
    requires forall j :: e <= j < |ks| ==> !Counted(d, ks[j], x, strict)
    ensures Tally(d, ks, x, strict) == e
  {
    if |ks| > 0 {
      var n := |ks| - 1;
      if e == |ks| {
        TallyPrefix(d, ks[..n], x, strict, n);
      } else {
        TallyPrefix(d, ks[..n], x, strict, e);
      }
    }
  }

  /** Counting only through a row's own key excludes nothing ahead of it; in particular a key
      is never strictly ahead of itself. */
  lemma {:induction false} CountAheadBelowSize(d: Direction, ks: seq<real>, i: nat)
    requires i < |ks|
    ensures CountAhead(d, ks, ks[i]) < |ks|
    ensures CountAhead(d, ks, ks[i]) < CountThrough(d, ks, ks[i])
  {
    var n := |ks| - 1;
    if i < n {
      CountAheadBelowSize(d, ks[..n], i);
    } else {
      assert CountAhead(d, ks[..n], ks[i]) <= CountThrough(d, ks[..n], ks[i]) by {
        TallyMonotone(d, ks[..n], ks[i]);
      }
    }
  }

  /** Rows strictly ahead are among the rows ahead or tied. */
  lemma {:induction false} TallyMonotone(d: Direction, ks: seq<real>, x: real)
    ensures CountAhead(d, ks, x) <= CountThrough(d, ks, x)
  {
    if |ks| > 0 {
      TallyMonotone(d, ks[..|ks| - 1], x);
    }
  }

  /** A key further back in the order has at least as many keys ahead of it (or tied with it). */
  lemma {:induction false} TallyMonotoneInKey(d: Direction, ks: seq<real>, x: real, y: real, strict: bool)
    requires !Ahead(d, y, x)
    ensures Tally(d, ks, x, strict) <= Tally(d, ks, y, strict)
  {
    if |ks| > 0 {
      TallyMonotoneInKey(d, ks[..|ks| - 1], x, y, strict);
    }
  }

  // ---------------------------------------------------------------------------
  // Peer groups

  /** The position just past the last peer of row `i`: the end of its peer group. */
  function PeerEnd(ks: seq<real>, i: nat): (e: nat)
    requires i < |ks|
    ensures i < e <= |ks|
    ensures forall j :: i <= j < e ==> ks[j] == ks[i]
    ensures e == |ks| || ks[e] != ks[i]
    decreases |ks| - i
  {
    if i + 1 < |ks| && ks[i + 1] == ks[i] then PeerEnd(ks, i + 1) else i + 1
  }

  /** The position of the first peer of row `i`: the start of its peer group. */
  function PeerStart(ks: seq<real>, i: nat): (b: nat)
    requires i < |ks|
    ensures b <= i
    ensures forall j :: b <= j <= i ==> ks[j] == ks[i]
    ensures b == 0 || ks[b - 1] != ks[i]
  {
    if i > 0 && ks[i - 1] == ks[i] then PeerStart(ks, i - 1) else i
  }

  /** In ORDER BY order the rows strictly ahead of a row are exactly those before its peer group. */
  lemma CountAheadIsPeerStart(d: Direction, ks: seq<real>, i: nat)
    requires SortedKeys(d, ks) && i < |ks|
    ensures CountAhead(d, ks, ks[i]) == PeerStart(ks, i)
  {
    var b := PeerStart(ks, i);
    forall j | 0 <= j < b ensures Ahead(d, ks[j], ks[i]) {
      assert !Ahead(d, ks[b], ks[j]);
      AheadTotal(d, ks[j], ks[b - 1]);
      assert !Ahead(d, ks[b - 1], ks[j]) || j == b - 1;
    }
    forall j | b <= j < |ks| ensures !Ahead(d, ks[j], ks[i]) {
      if j > i {
        assert !Ahead(d, ks[j], ks[i]);
      }
    }
    TallyPrefix(d, ks, ks[i], true, b);
  }

  /** In ORDER BY order the rows ahead of or tied with a row are exactly those up to the end of
      its peer group. */
  lemma CountThroughIsPeerEnd(d: Direction, ks: seq<real>, i: nat)
    requires SortedKeys(d, ks) && i < |ks|
    ensures CountThrough(d, ks, ks[i]) == PeerEnd(ks, i)
  {
    var e := PeerEnd(ks, i);
    forall j | 0 <= j < e ensures !Ahead(d, ks[i], ks[j]) {
      if j < i {
        assert !Ahead(d, ks[i], ks[j]);
      }
    }
    forall j | e <= j < |ks| ensures Ahead(d, ks[i], ks[j]) {
      assert !Ahead(d, ks[e], ks[i]);
      AheadTotal(d, ks[i], ks[e]);
      if j > e {
        assert !Ahead(d, ks[j], ks[e]);
      }
    }
    TallyPrefix(d, ks, ks[i], false, e);
  }

  // ---------------------------------------------------------------------------
  // RANK and DENSE_RANK

  /** RANK() along rows in ORDER BY order: a row tied with the row before it repeats that row's
      rank; any other row is ranked by its 1-based position, so gaps follow ties. */
  function Ranks(d: Direction, ks: seq<real>): (r: seq<nat>)
    requires SortedKeys(d, ks)
    ensures |r| == |ks|
    ensures forall i :: 0 <= i < |ks| ==> r[i] == 1 + CountAhead(d, ks, ks[i])
  {
    if |ks| == 0 then []
    else
      var n := |ks|;
      var p := Ranks(d, ks[..n - 1]);
      var last := if n > 1 && ks[n - 1] == ks[n - 2] then p[n - 2] else n;
      RanksStep(d, ks, p, last);
      p + [last]
  }

  lemma RanksStep(d: Direction, ks: seq<real>, p: seq<nat>, last: nat)
    requires SortedKeys(d, ks) && |ks| > 0 && |p| == |ks| - 1
    requires forall i :: 0 <= i < |p| ==> p[i] == 1 + CountAhead(d, ks[..|p|], ks[..|p|][i])
    requires last == if |ks| > 1 && ks[|ks| - 1] == ks[|ks| - 2] then p[|ks| - 2] else |ks|
    ensures forall i :: 0 <= i < |ks| ==> (p + [last])[i] == 1 + CountAhead(d, ks, ks[i])
  {
    var n := |ks|;
    assert ks[..n][..n - 1] == ks[..n - 1];
    assert ks[..n] == ks;
    forall i | 0 <= i < n ensures (p + [last])[i] == 1 + CountAhead(d, ks, ks[i]) {
      if i < n - 1 {
        assert ks[..n - 1][i] == ks[i];
        assert !Ahead(d, ks[n - 1], ks[i]);
      } else if n > 1 && ks[n - 1] == ks[n - 2] {
        assert ks[..n - 1][n - 2] == ks[n - 2];
      } else {
        CountAheadIsPeerStart(d, ks, n - 1);
      }
    }
  }

  /** DENSE_RANK() along rows in ORDER BY order: a row tied with the row before it repeats that
      row's rank; any other row gets the next number, so the numbering has no gaps. */
  function DenseRanks(d: Direction, ks: seq<real>): (r: seq<nat>)
    requires SortedKeys(d, ks)
    ensures |r| == |ks|
    ensures forall i :: 0 <= i < |ks| ==> r[i] == 1 + |DistinctAhead(d, ks, ks[i])|
  {
    if |ks| == 0 then []
    else
      var n := |ks|;
      var p := DenseRanks(d, ks[..n - 1]);
      var last := if n == 1 then 1 else if ks[n - 1] == ks[n - 2] then p[n - 2] else p[n - 2] + 1;
      DenseRanksStep(d, ks, p, last);
      p + [last]
  }

  lemma DenseRanksStep(d: Direction, ks: seq<real>, p: seq<nat>, last: nat)
    requires SortedKeys(d, ks) && |ks| > 0 && |p| == |ks| - 1
    requires forall i :: 0 <= i < |p| ==> p[i] == 1 + |DistinctAhead(d, ks[..|p|], ks[..|p|][i])|
    requires last == if |ks| == 1 then 1 else if ks[|ks| - 1] == ks[|ks| - 2] then p[|ks| - 2] else p[|ks| - 2] + 1
    ensures forall i :: 0 <= i < |ks| ==> (p + [last])[i] == 1 + |DistinctAhead(d, ks, ks[i])|
  {
    forall i | 0 <= i < |ks| ensures (p + [last])[i] == 1 + |DistinctAhead(d, ks, ks[i])| {
      if i < |p| {
        DenseRankKept(d, ks, p[i], i);
      } else {
        DenseRanksLast(d, ks, p, last);
      }
    }
  }

  /** A row before the last keeps its dense rank when the last row is appended. */
  lemma DenseRankKept(d: Direction, ks: seq<real>, rank: nat, i: nat)
    requires SortedKeys(d, ks) && i < |ks| - 1
    requires rank == 1 + |DistinctAhead(d, ks[..|ks| - 1], ks[i])|
    ensures rank == 1 + |DistinctAhead(d, ks, ks[i])|
  {
    var n := |ks|;
    var init := ks[..n - 1];
    assert ks == init + [ks[n - 1]];
    DistinctAheadExtend(d, init, ks[n - 1], ks[i]);
  }

  lemma DenseRanksLast(d: Direction, ks: seq<real>, p: seq<nat>, last: nat)
    requires SortedKeys(d, ks) && |ks| > 0 && |p| == |ks| - 1
    requires forall i :: 0 <= i < |p| ==> p[i] == 1 + |DistinctAhead(d, ks[..|p|], ks[..|p|][i])|
    requires last == if |ks| == 1 then 1 else if ks[|ks| - 1] == ks[|ks| - 2] then p[|ks| - 2] else p[|ks| - 2] + 1
    ensures last == 1 + |DistinctAhead(d, ks, ks[|ks| - 1])|
  {
    var n := |ks|;
    if n == 1 {
      assert DistinctAhead(d, ks, ks[0]) == {};
    } else {
      assert ks[..n - 1][n - 2] == ks[n - 2];
      DistinctAheadNext(d, ks);
    }
  }

  /** Appending a key that does not sort ahead of `x` leaves the distinct keys ahead of `x` alone. */
  lemma DistinctAheadExtend(d: Direction, init: seq<real>, y: real, x: real)
    requires !Ahead(d, y, x)
    ensures DistinctAhead(d, init + [y], x) == DistinctAhead(d, init, x)
  {
  }

  /** In ORDER BY order the last row has the same distinct keys ahead of it as the row before it
      when the two are peers, and those keys plus that row's key otherwise. */
  lemma DistinctAheadNext(d: Direction, ks: seq<real>)
    requires SortedKeys(d, ks) && |ks| > 1
    ensures var n := |ks|;
      DistinctAhead(d, ks, ks[n - 1]) ==
        if ks[n - 1] == ks[n - 2] then DistinctAhead(d, ks[..n - 1], ks[n - 2])
        else DistinctAhead(d, ks[..n - 1], ks[n - 2]) + {ks[n - 2]}
    ensures var n := |ks|; ks[n - 2] !in DistinctAhead(d, ks[..n - 1], ks[n - 2])
  {
    var n := |ks|;
    var init := ks[..n - 1];
    var x, w := ks[n - 1], ks[n - 2];
    assert ks == init + [x];
    assert init[n - 2] == w;
    if x != w {
      assert Ahead(d, w, x) by {
        AheadTotal(d, x, w);
      }
      forall y | y in init ensures (y == w || Ahead(d, y, w)) <==> Ahead(d, y, x) {
        var j :| 0 <= j < n - 1 && init[j] == y;
        assert !Ahead(d, ks[n - 2], ks[j]);
        AheadTotal(d, y, w);
      }
    }
  }

  // ---------------------------------------------------------------------------
  // PERCENT_RANK and CUME_DIST

  /** PERCENT_RANK(): (rank - 1) / (rows - 1), and 0 for a partition of one row. */
  function PercentRanks(d: Direction, ks: seq<real>): (r: seq<real>)
    requires SortedKeys(d, ks)
    ensures |r| == |ks|
    ensures forall i :: 0 <= i < |ks| ==> 0.0 <= r[i] <= 1.0
    ensures forall i :: 0 <= i < |ks| ==>
      r[i] == if |ks| > 1 then CountAhead(d, ks, ks[i]) as real / (|ks| - 1) as real else 0.0
  {
    var rk := Ranks(d, ks);
    var r := seq(|ks|, i requires 0 <= i < |ks| =>
      if |ks| > 1 then (rk[i] - 1) as real / (|ks| - 1) as real else 0.0);
    forall i | 0 <= i < |ks| ensures 0.0 <= r[i] <= 1.0 {
      CountAheadBelowSize(d, ks, i);
      if |ks| > 1 {
        RatioInUnit(rk[i] - 1, |ks| - 1);
      }
    }
    r
  }

  /** A count divided by a count at least as large lies in [0, 1]. */
  lemma RatioInUnit(a: nat, b: nat)
    requires 0 < b && a <= b
    ensures 0.0 <= a as real / b as real <= 1.0
  {
  }

  lemma RatioOne(a: nat)
    requires 0 < a
    ensures a as real / a as real == 1.0
  {
  }

  /** For a count up to `b`, the ratio a / b is 1 exactly when a == b. */
  lemma RatioIsOne(a: nat, b: nat)
    requires 0 < b && a <= b
    ensures a as real / b as real == 1.0 <==> a == b
  {
    if a < b {
      RatioBelowOne(a, b);
    } else {
      RatioOne(a);
    }
  }

  lemma RatioBelowOne(a: nat, b: nat)
    requires a < b
    ensures a as real / b as real < 1.0
  {
  }

  /** Dividing by the same positive count keeps the order of two counts. */
  lemma RatioMonotone(a: nat, b: nat, c: nat)
    requires 0 < c && a <= b
    ensures a as real / c as real <= b as real / c as real
  {
  }

  /** CUME_DIST(): the share of the partition's rows that precede the row or are its peers,
      computed from the end of the row's peer group. */
  function CumeDists(d: Direction, ks: seq<real>): (r: seq<real>)
    requires SortedKeys(d, ks)
    ensures |r| == |ks|
    ensures forall i :: 0 <= i < |ks| ==> 0.0 < r[i] <= 1.0
    ensures forall i :: 0 <= i < |ks| ==> r[i] == CountThrough(d, ks, ks[i]) as real / |ks| as real
  {
    var r := seq(|ks|, i requires 0 <= i < |ks| => PeerEnd(ks, i) as real / |ks| as real);
    forall i | 0 <= i < |ks|
      ensures r[i] == CountThrough(d, ks, ks[i]) as real / |ks| as real
      ensures 0.0 < r[i] <= 1.0
    {
      CountThroughIsPeerEnd(d, ks, i);
      RatioInUnit(PeerEnd(ks, i), |ks|);
    }
    r
  }

  // ---------------------------------------------------------------------------
  // Properties stated in terms of the keys

  /** Peers share their rank, dense rank, percent rank and cumulative distribution. */
  lemma PeersRankAlike(d: Direction, ks: seq<real>, i: nat, j: nat)
    requires SortedKeys(d, ks) && i < |ks| && j < |ks| && ks[i] == ks[j]
    ensures Ranks(d, ks)[i] == Ranks(d, ks)[j]
    ensures DenseRanks(d, ks)[i] == DenseRanks(d, ks)[j]
    ensures PercentRanks(d, ks)[i] == PercentRanks(d, ks)[j]
    ensures CumeDists(d, ks)[i] == CumeDists(d, ks)[j]
  {
  }

  /** RANK has gaps after ties: a row that is not tied with its predecessor is ranked by its
      1-based position, whatever the size of the tie before it. */
  lemma RankAfterTie(d: Direction, ks: seq<real>, i: nat)
    requires SortedKeys(d, ks) && 0 < i < |ks| && ks[i] != ks[i - 1]
    ensures Ranks(d, ks)[i] == i + 1
  {
    CountAheadIsPeerStart(d, ks, i);
  }

  /** DENSE_RANK has no gaps: it starts at 1 and each row's dense rank equals the previous
      row's, or exceeds it by exactly one when the key changes. */
  lemma DenseRankNoGaps(d: Direction, ks: seq<real>, i: nat)
    requires SortedKeys(d, ks) && i < |ks|
    ensures i == 0 ==> DenseRanks(d, ks)[i] == 1
    ensures i > 0 && ks[i] == ks[i - 1] ==> DenseRanks(d, ks)[i] == DenseRanks(d, ks)[i - 1]
    ensures i > 0 && ks[i] != ks[i - 1] ==> DenseRanks(d, ks)[i] == DenseRanks(d, ks)[i - 1] + 1
  {
    var n := |ks|;
    var p := DenseRanks(d, ks[..i + 1]);
    assert ks[..i + 1][..i] == ks[..i];
    DenseRanksPrefix(d, ks, i + 1);
    if i > 0 {
      DenseRanksPrefix(d, ks, i);
      assert ks[..i + 1][i - 1] == ks[i - 1];
    }
  }

  /** A row's dense rank depends only on the rows up to it. */
  lemma DenseRanksPrefix(d: Direction, ks: seq<real>, m: nat)
    requires SortedKeys(d, ks) && 0 < m <= |ks|
    ensures DenseRanks(d, ks[..m])[m - 1] == DenseRanks(d, ks)[m - 1]
  {
    var x := ks[m - 1];
    forall y | y in ks && Ahead(d, y, x) ensures y in ks[..m] {
      var j :| 0 <= j < |ks| && ks[j] == y;
      assert j < m;
      assert ks[..m][j] == y;
    }
    assert DistinctAhead(d, ks, x) == DistinctAhead(d, ks[..m], x);
  }

  /** A row's rank is decided by the keys alone: 1 + the number of rows whose key sorts strictly
      ahead of it in any arrangement of the same keys, so the order of ties cannot change it. */
  lemma RankIndependentOfTies(d: Direction, ks: seq<real>, other: seq<real>, i: nat)
    requires SortedKeys(d, ks) && i < |ks| && multiset(ks) == multiset(other)
    ensures Ranks(d, ks)[i] == 1 + CountAhead(d, other, ks[i])
    ensures DenseRanks(d, ks)[i] == 1 + |DistinctAhead(d, other, ks[i])|
    ensures CumeDists(d, ks)[i] == CountThrough(d, other, ks[i]) as real / |other| as real
  {
    TallyPermutation(d, ks, other, ks[i], true);
    TallyPermutation(d, ks, other, ks[i], false);
    assert |ks| == |multiset(ks)| == |other|;
    forall y ensures y in ks <==> y in other {
      assert y in ks <==> y in multiset(ks);
      assert y in other <==> y in multiset(other);
    }
    assert DistinctAhead(d, ks, ks[i]) == DistinctAhead(d, other, ks[i]);
  }

  /** The first row of a partition has percent rank 0; the last row has percent rank 1 exactly
      when it has no peer, in a partition of more than one row. */
  lemma PercentRankEnds(d: Direction, ks: seq<real>)
    requires SortedKeys(d, ks) && |ks| > 0
    ensures PercentRanks(d, ks)[0] == 0.0
    ensures |ks| > 1 ==> (PercentRanks(d, ks)[|ks| - 1] == 1.0 <==> ks[|ks| - 1] != ks[|ks| - 2])
  {
    var n := |ks|;
    var pr := PercentRanks(d, ks);
    CountAheadIsPeerStart(d, ks, 0);
    if n > 1 {
      var c := CountAhead(d, ks, ks[n - 1]);
      assert pr[n - 1] == c as real / (n - 1) as real;
      LastRowAhead(d, ks);
      RatioIsOne(c, n - 1);
    }
  }

  /** Every other row sorts strictly ahead of the last one exactly when the last has no peer. */
  lemma LastRowAhead(d: Direction, ks: seq<real>)
    requires SortedKeys(d, ks) && |ks| > 1
    ensures CountAhead(d, ks, ks[|ks| - 1]) <= |ks| - 1
    ensures CountAhead(d, ks, ks[|ks| - 1]) == |ks| - 1 <==> ks[|ks| - 1] != ks[|ks| - 2]
  {
    var n := |ks|;
    CountAheadIsPeerStart(d, ks, n - 1);
    if ks[n - 1] == ks[n - 2] {
      assert PeerStart(ks, n - 1) == PeerStart(ks, n - 2);
    }
  }

  /** CUME_DIST never decreases along the order, and the last row's is 1. */
  lemma CumeDistMonotone(d: Direction, ks: seq<real>, i: nat, j: nat)
    requires SortedKeys(d, ks) && i <= j < |ks|
    ensures CumeDists(d, ks)[i] <= CumeDists(d, ks)[j]
    ensures CumeDists(d, ks)[|ks| - 1] == 1.0
  {
    var n := |ks|;
    var cd := CumeDists(d, ks);
    var a, b := CountThrough(d, ks, ks[i]), CountThrough(d, ks, ks[j]);
    assert cd[i] == a as real / n as real && cd[j] == b as real / n as real;
    assert !Ahead(d, ks[j], ks[i]);
    TallyMonotoneInKey(d, ks, ks[i], ks[j], false);
    RatioMonotone(a, b, n);
    CountThroughIsPeerEnd(d, ks, n - 1);
    RatioOne(n);
  }

  /** PERCENT_RANK never decreases along the order. */
  lemma PercentRankMonotone(d: Direction, ks: seq<real>, i: nat, j: nat)
    requires SortedKeys(d, ks) && i <= j < |ks|
    ensures PercentRanks(d, ks)[i] <= PercentRanks(d, ks)[j]
  {
    if |ks| > 1 {
      TallyMonotoneInKey(d, ks, ks[i], ks[j], true);
      RatioMonotone(CountAhead(d, ks, ks[i]), CountAhead(d, ks, ks[j]), |ks| - 1);
    }
  }

  // ---------------------------------------------------------------------------
  // NTILE

  /** First 0-based position of bucket `b` when `n` rows are dealt into `k` buckets as evenly
      as possible: every bucket takes n / k rows and the first n % k buckets one row more. */
  function BucketStart(n: nat, k: nat, b: nat): nat
    requires k >= 1 && 1 <= b <= k + 1
  {
    if b == 1 then 0
    else BucketStart(n, k, b - 1) + n / k + (if b - 1 <= n % k then 1 else 0)
  }

  /** NTILE(k) for the row at 0-based position `i` of `n` rows in ORDER BY order: the bucket
      whose positions contain `i`. */
  function Ntile(n: nat, k: nat, i: nat): (b: nat)
    requires k >= 1 && i < n
    ensures 1 <= b <= k
    ensures BucketStart(n, k, b) <= i < BucketStart(n, k, b + 1)
  {
    BucketsCover(n, k);
    NtileFrom(n, k, i, 1)
  }

  /** The first bucket from `b` on whose positions contain `i`. */
  function NtileFrom(n: nat, k: nat, i: nat, b: nat): (t: nat)
    requires k >= 1 && 1 <= b <= k
    requires BucketStart(n, k, b) <= i < BucketStart(n, k, k + 1)
    ensures b <= t <= k
    ensures BucketStart(n, k, t) <= i < BucketStart(n, k, t + 1)
    decreases k - b
  {
    if i < BucketStart(n, k, b + 1) then b else NtileFrom(n, k, i, b + 1)
  }

  /** Closed form of a bucket's first position. */
  lemma {:induction false} BucketStartFormula(n: nat, k: nat, b: nat)
    requires k >= 1 && 1 <= b <= k + 1
    ensures BucketStart(n, k, b) == (b - 1) * (n / k) + Sql.Min(b - 1, n % k)
  {
    if b > 1 {
      BucketStartFormula(n, k, b - 1);
      assert (b - 2) * (n / k) + n / k == (b - 1) * (n / k);
    }
  }

  /** The buckets cover the rows: bucket 1 starts at the first row and bucket k ends at the last. */
  lemma BucketsCover(n: nat, k: nat)
    requires k >= 1
    ensures BucketStart(n, k, 1) == 0 && BucketStart(n, k, k + 1) == n
  {
    BucketStartFormula(n, k, k + 1);
    assert n == k * (n / k) + n % k;
  }

  lemma {:induction false} BucketStartMonotone(n: nat, k: nat, a: nat, b: nat)
    requires k >= 1 && 1 <= a <= b <= k + 1
    ensures BucketStart(n, k, a) <= BucketStart(n, k, b)
    decreases b - a
  {
    if a < b {
      BucketStartMonotone(n, k, a, b - 1);
      assert BucketStart(n, k, b - 1) <= BucketStart(n, k, b) by {
        assert n / k >= 0;
      }
    }
  }

  /** Row `i` falls in bucket `b` exactly when it lies between the bucket's first position and
      the next bucket's. */
  lemma NtileBucket(n: nat, k: nat, i: nat, b: nat)
    requires k >= 1 && i < n && 1 <= b <= k
    ensures Ntile(n, k, i) == b <==> BucketStart(n, k, b) <= i < BucketStart(n, k, b + 1)
  {
    var t := Ntile(n, k, i);
    if t < b {
      BucketStartMonotone(n, k, t + 1, b);
    } else if t > b {
      BucketStartMonotone(n, k, b + 1, t);
    }
  }

  /** Bucket sizes differ by at most one, the larger buckets first. */
  lemma BucketSizes(n: nat, k: nat, b: nat)
    requires k >= 1 && 1 <= b < k
    ensures BucketStart(n, k, b + 1) - BucketStart(n, k, b) >= BucketStart(n, k, b + 2) - BucketStart(n, k, b + 1)
    ensures BucketStart(n, k, b + 1) - BucketStart(n, k, b) <= BucketStart(n, k, b + 2) - BucketStart(n, k, b + 1) + 1
  {
  }

  /** NTILE never decreases along the order. */
  lemma NtileMonotone(n: nat, k: nat, i: nat, j: nat)
    requires k >= 1 && i <= j < n
    ensures Ntile(n, k, i) <= Ntile(n, k, j)
  {
    var a, b := Ntile(n, k, i), Ntile(n, k, j);
    if a > b {
      BucketStartMonotone(n, k, b + 1, a);
    }
  }

  /** The last row is in bucket min(k, n): all k buckets are used unless there are fewer rows
      than buckets, in which case each row has a bucket of its own. */
  lemma NtileLast(n: nat, k: nat)
    requires k >= 1 && n >= 1
    ensures Ntile(n, k, n - 1) == if n < k then n else k
  {
    var t := Ntile(n, k, n - 1);
    if n < k {
      FewRowsBuckets(n, k, t);
      FewRowsBuckets(n, k, t + 1);
    } else {
      BucketsCover(n, k);
      if t < k {
        BucketStartMonotone(n, k, t + 1, k);
        LastBucketFilled(n, k);
      }
    }
  }

  /** With fewer rows than buckets, bucket `b` starts at row b - 1, or at the end. */
  lemma {:induction false} FewRowsBuckets(n: nat, k: nat, b: nat)
    requires n < k && 1 <= b <= k + 1
    ensures BucketStart(n, k, b) == Sql.Min(b - 1, n)
  {
    if b > 1 {
      FewRowsBuckets(n, k, b - 1);
      SmallDivision(n, k);
    }
  }

  lemma SmallDivision(n: nat, k: nat)
    requires n < k
    ensures n / k == 0 && n % k == n
  {
  }

  /** With at least as many rows as buckets, the last bucket is not empty. */
  lemma LastBucketFilled(n: nat, k: nat)
    requires 1 <= k <= n
    ensures BucketStart(n, k, k) < BucketStart(n, k, k + 1)
  {
    assert n / k >= 1;
  }
}
