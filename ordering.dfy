/** ORDER BY on one numeric sort key, and the stable sort that puts a window's rows into
    ORDER BY order. Rows whose keys are equal (peers) keep the order in which they are
    given: the input order is the explicit tie-break. */
module Ordering {

  /** The direction of an ORDER BY key. */
  datatype Direction = Asc | Desc

  /** Key `x` sorts strictly ahead of key `y`; keys that are equal are peers. */
  predicate Ahead(d: Direction, x: real, y: real) {
    match d
    case Asc => x < y
    case Desc => x > y
  }

  /** Two different keys are always ordered one way or the other. */
  lemma AheadTotal(d: Direction, x: real, y: real)
    ensures x == y || Ahead(d, x, y) || Ahead(d, y, x)
    ensures !(Ahead(d, x, y) && Ahead(d, y, x))
  {
  }

  /** The sort keys of `s`, row by row. */
  function Keys<T>(s: seq<T>, key: T -> real): (ks: seq<real>)
    ensures |ks| == |s|
    ensures forall i :: 0 <= i < |s| ==> ks[i] == key(s[i])
  {
    seq(|s|, i requires 0 <= i < |s| => key(s[i]))
  }

  /** Keys in ORDER BY order: no key sorts ahead of an earlier one. */
  predicate SortedKeys(d: Direction, ks: seq<real>) {
    forall i, j :: 0 <= i < j < |ks| ==> !Ahead(d, ks[j], ks[i])
  }

  /** Rows in ORDER BY order of `key`. */
  predicate SortedBy<T>(s: seq<T>, key: T -> real, d: Direction) {
    forall i, j :: 0 <= i < j < |s| ==> !Ahead(d, key(s[j]), key(s[i]))
  }

  lemma SortedKeysOf<T>(s: seq<T>, key: T -> real, d: Direction)
    requires SortedBy(s, key, d)
    ensures SortedKeys(d, Keys(s, key))
  {
  }

  /** The rows of `s` whose key equals `v`, in their order in `s`: one group of peers. */
  function Peers<T>(s: seq<T>, key: T -> real, v: real): (r: seq<T>)
    ensures |r| <= |s|
  {
    if |s| == 0 then []
    else (if key(s[0]) == v then [s[0]] else []) + Peers(s[1..], key, v)
  }

  /** Places `x` after every row that is not strictly behind it, so that `x` follows its peers. */
  function Insert<T>(x: T, s: seq<T>, key: T -> real, d: Direction): (r: seq<T>)
    ensures |r| == |s| + 1
  {
    if |s| == 0 then [x]
    else if Ahead(d, key(x), key(s[0])) then [x] + s
    else [s[0]] + Insert(x, s[1..], key, d)
  }

  lemma {:induction false} InsertMultiset<T>(x: T, s: seq<T>, key: T -> real, d: Direction)
    ensures multiset(Insert(x, s, key, d)) == multiset(s) + multiset{x}
  {
    if |s| > 0 && !Ahead(d, key(x), key(s[0])) {
      InsertMultiset(x, s[1..], key, d);
      assert s == [s[0]] + s[1..];
    }
  }

  lemma {:induction false} InsertKeys<T>(x: T, s: seq<T>, key: T -> real, d: Direction)
    ensures multiset(Keys(Insert(x, s, key, d), key)) == multiset(Keys(s, key)) + multiset{key(x)}
  {
    if |s| == 0 {
      assert Keys([x], key) == [key(x)];
    } else if Ahead(d, key(x), key(s[0])) {
      KeysAppend([x], s, key);
      assert Keys([x], key) == [key(x)];
    } else {
      var t := Insert(x, s[1..], key, d);
      InsertKeys(x, s[1..], key, d);
      assert s == [s[0]] + s[1..];
      KeysAppend([s[0]], t, key);
      KeysAppend([s[0]], s[1..], key);
      assert Keys([s[0]], key) == [key(s[0])];
    }
  }

  lemma KeysAppend<T>(a: seq<T>, b: seq<T>, key: T -> real)
    ensures Keys(a + b, key) == Keys(a, key) + Keys(b, key)
  {
  }

  lemma {:induction false} InsertSorted<T>(x: T, s: seq<T>, key: T -> real, d: Direction)
    requires SortedBy(s, key, d)
    ensures SortedBy(Insert(x, s, key, d), key, d)
  {
    if |s| > 0 && !Ahead(d, key(x), key(s[0])) {
      var t := Insert(x, s[1..], key, d);
      InsertSorted(x, s[1..], key, d);
      InsertMultiset(x, s[1..], key, d);
      forall j | 0 <= j < |t| ensures !Ahead(d, key(t[j]), key(s[0])) {
        assert t[j] in multiset(t);
        if t[j] != x {
          assert t[j] in s[1..];
        }
      }
    }
  }

  /** ORDER BY key: a stable sort of `s` (proved stable by SortStable). */
  function SortBy<T>(s: seq<T>, key: T -> real, d: Direction): (r: seq<T>)
    ensures |r| == |s|
    ensures SortedBy(r, key, d)
    ensures multiset(r) == multiset(s)
    ensures multiset(Keys(r, key)) == multiset(Keys(s, key))
  {
    if |s| == 0 then []
    else
      var r0 := SortBy(s[..|s| - 1], key, d);
      InsertLast(s, r0, key, d);
      Insert(s[|s| - 1], r0, key, d)
  }

  /** Inserting the last row of `s` into the sorted other rows sorts all of `s`. */
  lemma InsertLast<T>(s: seq<T>, r0: seq<T>, key: T -> real, d: Direction)
    requires |s| > 0 && SortedBy(r0, key, d)
    requires multiset(r0) == multiset(s[..|s| - 1])
    requires multiset(Keys(r0, key)) == multiset(Keys(s[..|s| - 1], key))
    ensures SortedBy(Insert(s[|s| - 1], r0, key, d), key, d)
    ensures multiset(Insert(s[|s| - 1], r0, key, d)) == multiset(s)
    ensures multiset(Keys(Insert(s[|s| - 1], r0, key, d), key)) == multiset(Keys(s, key))
  {
    var init := s[..|s| - 1];
    var x := s[|s| - 1];
    InsertSorted(x, r0, key, d);
    InsertMultiset(x, r0, key, d);
    InsertKeys(x, r0, key, d);
    assert s == init + [x];
    KeysAppend(init, [x], key);
    assert Keys([x], key) == [key(x)];
  }

  /** Every row of the input is somewhere in the sorted output, and only those. */
  lemma SortMembers<T>(s: seq<T>, key: T -> real, d: Direction, x: T)
    ensures x in SortBy(s, key, d) <==> x in s
  {
    var r := SortBy(s, key, d);
    assert x in r <==> x in multiset(r);
    assert x in s <==> x in multiset(s);
  }

  /** Every row of the sorted output is a row of the input. */
  lemma SortedMembers<T>(s: seq<T>, key: T -> real, d: Direction)
    ensures forall i :: 0 <= i < |SortBy(s, key, d)| ==> SortBy(s, key, d)[i] in s
  {
    var r := SortBy(s, key, d);
    forall i | 0 <= i < |r| ensures r[i] in s {
      SortMembers(s, key, d, r[i]);
    }
  }

  /** ORDER BY then LIMIT m keeps the best m rows: a row left out never sorts strictly ahead
      of a row that was kept. */
  lemma LimitKeepsBest<T>(s: seq<T>, key: T -> real, d: Direction, m: nat, x: T)
    requires x in s && m <= |s|
    ensures x in SortBy(s, key, d)[..m] || forall i :: 0 <= i < m ==> !Ahead(d, key(x), key(SortBy(s, key, d)[i]))
  {
    var r := SortBy(s, key, d);
    SortMembers(s, key, d, x);
    var j :| 0 <= j < |r| && r[j] == x;
    if j < m {
      assert r[..m][j] == x;
    }
  }

  lemma {:induction false} PeersAppend<T>(a: seq<T>, b: seq<T>, key: T -> real, v: real)
    ensures Peers(a + b, key, v) == Peers(a, key, v) + Peers(b, key, v)
  {
    if |a| > 0 {
      assert (a + b)[1..] == a[1..] + b;
      PeersAppend(a[1..], b, key, v);
    } else {
      assert a + b == b;
    }
  }

  lemma {:induction false} NoPeers<T>(s: seq<T>, key: T -> real, v: real)
    requires forall j :: 0 <= j < |s| ==> key(s[j]) != v
    ensures Peers(s, key, v) == []
  {
    if |s| > 0 {
      NoPeers(s[1..], key, v);
    }
  }

  /** Inserting `x` appends it to its own group of peers and leaves every other group as it was. */
  lemma {:induction false} InsertPeers<T>(x: T, s: seq<T>, key: T -> real, d: Direction, v: real)
    requires SortedBy(s, key, d)
    ensures Peers(Insert(x, s, key, d), key, v)
         == Peers(s, key, v) + (if key(x) == v then [x] else [])
  {
    if |s| == 0 {
    } else if Ahead(d, key(x), key(s[0])) {
      InsertPeersAhead(x, s, key, d, v);
    } else {
      var r := Insert(x, s, key, d);
      var t := Insert(x, s[1..], key, d);
      var head := if key(s[0]) == v then [s[0]] else [];
      var tail := if key(x) == v then [x] else [];
      assert r[0] == s[0] && r[1..] == t;
      InsertPeers(x, s[1..], key, d, v);
      assert Peers(r, key, v) == head + Peers(t, key, v);
      assert Peers(s, key, v) == head + Peers(s[1..], key, v);
      assert head + (Peers(s[1..], key, v) + tail) == (head + Peers(s[1..], key, v)) + tail;
    }
  }

  /** A row that sorts ahead of every row of `s` has no peer in `s`. */
  lemma InsertPeersAhead<T>(x: T, s: seq<T>, key: T -> real, d: Direction, v: real)
    requires SortedBy(s, key, d) && |s| > 0 && Ahead(d, key(x), key(s[0]))
    ensures Peers([x] + s, key, v) == Peers(s, key, v) + (if key(x) == v then [x] else [])
  {
    var r := [x] + s;
    assert r[1..] == s;
    if key(x) == v {
      forall j | 0 <= j < |s| ensures key(s[j]) != v {
        if j > 0 {
          assert !Ahead(d, key(s[j]), key(s[0]));
        }
      }
      NoPeers(s, key, v);
    }
  }

  /** The sort is stable: each group of peers comes out in the order in which it went in,
      so ties are broken by input order. */
  lemma {:induction false} SortStable<T>(s: seq<T>, key: T -> real, d: Direction, v: real)
    ensures Peers(SortBy(s, key, d), key, v) == Peers(s, key, v)
  {
    if |s| > 0 {
      var init := s[..|s| - 1];
      var x := s[|s| - 1];
      SortStable(init, key, d, v);
      InsertPeers(x, SortBy(init, key, d), key, d, v);
      assert s == init + [x];
      PeersAppend(init, [x], key, v);
      assert Peers([x], key, v) == (if key(x) == v then [x] else []) by {
        assert [x][1..] == [];
      }
    }
  }
}
