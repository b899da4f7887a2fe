/** The positional window functions over one partition in ORDER BY order: LEAD, FIRST_VALUE,
    LAST_VALUE and NTH_VALUE, with the frame they are evaluated over. */
module Positional {
  import opened Sql
  import Ranking

  /** The window frame of a positional function.
      `WholePartition` is ROWS BETWEEN UNBOUNDED PRECEDING AND UNBOUNDED FOLLOWING;
      `ToCurrentPeers` is the default frame of a window with ORDER BY, RANGE BETWEEN
      UNBOUNDED PRECEDING AND CURRENT ROW, which ends after the current row's last peer. */
  datatype Frame = WholePartition | ToCurrentPeers

  /** One past the last position of the frame of row `i`; every frame here starts at the
      first row of the partition. */
  function FrameEnd(ks: seq<real>, f: Frame, i: nat): (e: nat)
    requires i < |ks|
    ensures i < e <= |ks|
    ensures f.WholePartition? ==> e == |ks|
    ensures f.ToCurrentPeers? ==> forall j :: i <= j < e ==> ks[j] == ks[i]
    ensures f.ToCurrentPeers? ==> e == |ks| || ks[e] != ks[i]
  {
    match f
    case WholePartition => |ks|
    case ToCurrentPeers => Ranking.PeerEnd(ks, i)
  }

  /** NTH_VALUE(v, k) at row `i`: the value of the k-th row of the frame, NULL when the frame
      has fewer than k rows. */
  function NthValue<T>(vals: seq<T>, ks: seq<real>, f: Frame, i: nat, k: nat): (r: Option<T>)
    requires |vals| == |ks| && i < |ks| && k >= 1
    ensures r.Some? <==> k <= FrameEnd(ks, f, i)
    ensures r.Some? ==> r.value == vals[k - 1]
  {
    if k <= FrameEnd(ks, f, i) then Some(vals[k - 1]) else None
  }

  /** FIRST_VALUE(v) at row `i`: the value of the frame's first row. */
  function FirstValue<T>(vals: seq<T>, ks: seq<real>, f: Frame, i: nat): (r: T)
    requires |vals| == |ks| && i < |ks|
    ensures NthValue(vals, ks, f, i, 1) == Some(r)
  {
    vals[0]
  }

  /** LAST_VALUE(v) at row `i`: the value of the frame's last row. */
  function LastValue<T>(vals: seq<T>, ks: seq<real>, f: Frame, i: nat): (r: T)
    requires |vals| == |ks| && i < |ks|
    ensures NthValue(vals, ks, f, i, FrameEnd(ks, f, i)) == Some(r)
  {
    vals[FrameEnd(ks, f, i) - 1]
  }

  /** Over the whole partition, NTH_VALUE is broadcast: every row sees the same value, present
      exactly when the partition has at least k rows. */
  lemma NthValueBroadcast<T>(vals: seq<T>, ks: seq<real>, i: nat, j: nat, k: nat)
    requires |vals| == |ks| && i < |ks| && j < |ks| && k >= 1
    ensures NthValue(vals, ks, WholePartition, i, k) == NthValue(vals, ks, WholePartition, j, k)
    ensures NthValue(vals, ks, WholePartition, i, k).Some? <==> k <= |ks|
  {
  }

  /** A later milestone is reached only after every earlier one: if the k-th row exists, so
      does every row before it. */
  lemma NthValueNested<T>(vals: seq<T>, ks: seq<real>, f: Frame, i: nat, k: nat, m: nat)
    requires |vals| == |ks| && i < |ks| && 1 <= m <= k
    ensures NthValue(vals, ks, f, i, k).Some? ==> NthValue(vals, ks, f, i, m).Some?
  {
  }

  /** Over the whole partition, LAST_VALUE at every row is the value of the partition's last
      row, whatever the current row. */
  lemma LastValueWholePartition<T>(vals: seq<T>, ks: seq<real>, i: nat)
    requires |vals| == |ks| && i < |ks|
    ensures LastValue(vals, ks, WholePartition, i) == vals[|vals| - 1]
  {
  }

  /** Under the default frame LAST_VALUE degenerates: when no two rows share a sort key, it is
      just the current row's own value. This is why the queries state the whole-partition
      frame explicitly. */
  lemma LastValueDefaultFrame<T>(vals: seq<T>, ks: seq<real>, i: nat)
    requires |vals| == |ks| && i < |ks|
    requires forall a, b :: 0 <= a < b < |ks| ==> ks[a] != ks[b]
    ensures LastValue(vals, ks, ToCurrentPeers, i) == vals[i]
  {
  }

  /** LEAD(v) at row `i`: the next row's value, NULL at the last row. */
  function Lead<T>(vals: seq<T>, i: nat): (r: Option<T>)
    requires i < |vals|
    ensures r.None? <==> i == |vals| - 1
    ensures r.Some? ==> r.value == vals[i + 1]
  {
    if i + 1 < |vals| then Some(vals[i + 1]) else None
  }
}
