/**
 * The ranking rule shared by `recommend_by_title` and `recommend_for_item`:
 * `np.argsort(sims)[::-1][1:top_k + 1]`, then `df.iloc[...]` with a `score`
 * column holding each chosen row's similarity.
 */
module Ranking {
  import opened Wrappers
  import opened Tables
  import opened Ordering

  /** The similarity scores, as sort keys. */
  function NumKeys(scores: seq<int>): (keys: seq<Cell>)
    ensures |keys| == |scores| && forall i :: 0 <= i < |scores| ==> keys[i] == Num(scores[i])
  {
    seq(|scores|, i requires 0 <= i < |scores| => Num(scores[i]))
  }

  /** `np.argsort(scores)[::-1]`: every position once, highest score first. */
  function Descending(scores: seq<int>): (order: seq<nat>)
    ensures |order| == |scores| && InRange(order, |scores|)
  {
    ArgSortDesc(NumKeys(scores))
  }

  /** `np.argsort(scores)[::-1][1:top_k + 1]`: drop the first sorted position, keep up to top_k. */
  function TopPositions(scores: seq<int>, topK: int): seq<nat>
  {
    PySlice(Descending(scores), 1, topK + 1)
  }

  /** How many rows a ranking returns for a non-negative top_k: min(top_k, N - 1), and none for N = 0. */
  function RankLength(topK: nat, n: nat): nat
  {
    if n == 0 then 0 else if topK < n - 1 then topK else n - 1
  }

  /**
   * What the ranking rule promises about the positions it returns: min(top_k,
   * N-1) of them for a non-negative top_k, distinct and in range, in
   * non-increasing score order; one position of maximal score is left out,
   * and every other position left out scores no higher than any returned one.
   */
  ghost predicate RankedPositions(scores: seq<int>, topK: int, pos: seq<nat>)
  {
    && (topK >= 0 ==> |pos| == RankLength(topK, |scores|))
    && InRange(pos, |scores|)
    && (forall i, j :: 0 <= i < j < |pos| ==> pos[i] != pos[j])
    && (forall i, j :: 0 <= i < j < |pos| ==> scores[pos[i]] >= scores[pos[j]])
    && (|scores| > 0 ==>
          exists d :: (&& 0 <= d < |scores| && d !in pos
                       && (forall j :: 0 <= j < |scores| ==> scores[j] <= scores[d])
                       && (forall j, i :: 0 <= j < |scores| && j != d && j !in pos && 0 <= i < |pos| ==> scores[j] <= scores[pos[i]])))
  }

  /** The ranking rule meets its promise, in both branches of `recommend_by_title` alike. */
  lemma TopPositionsSpec(scores: seq<int>, topK: int)
    ensures RankedPositions(scores, topK, TopPositions(scores, topK))
  {
    var pos := TopPositions(scores, topK);
    TopIsSlice(scores, topK);
    TopOrdered(scores, topK);
    if |scores| > 0 {
      TopLeavesOutBest(scores, topK);
      var d := Descending(scores)[0];
      assert 0 <= d < |scores| && d !in pos;
    }
  }

  /** Without an empty table, the result is the descending order from its second entry on. */
  lemma TopIsSlice(scores: seq<int>, topK: int)
    ensures |scores| == 0 ==> TopPositions(scores, topK) == []
    ensures |scores| > 0 ==> |TopPositions(scores, topK)| < |scores|
    ensures forall i :: 0 <= i < |TopPositions(scores, topK)| ==> TopPositions(scores, topK)[i] == Descending(scores)[i + 1]
    ensures topK >= 0 ==> |TopPositions(scores, topK)| == RankLength(topK, |scores|)
    ensures |scores| > 0 ==> |TopPositions(scores, topK)| + 1 == (if SliceBound(topK + 1, |scores|) == 0 then 1 else SliceBound(topK + 1, |scores|))
  {
  }

  /** The returned positions are distinct, in range and in non-increasing score order. */
  lemma TopOrdered(scores: seq<int>, topK: int)
    ensures InRange(TopPositions(scores, topK), |scores|)
    ensures forall i, j :: 0 <= i < j < |TopPositions(scores, topK)| ==> TopPositions(scores, topK)[i] != TopPositions(scores, topK)[j]
    ensures forall i, j :: 0 <= i < j < |TopPositions(scores, topK)| ==>
      scores[TopPositions(scores, topK)[i]] >= scores[TopPositions(scores, topK)[j]]
  {
    var order := Descending(scores);
    var pos := TopPositions(scores, topK);
    var keys := NumKeys(scores);
    PermutationFacts(order, |scores|);
    TopIsSlice(scores, topK);
    forall i, j | 0 <= i < j < |pos| ensures scores[pos[i]] >= scores[pos[j]] {
      assert KeyGe(keys[order[i + 1]], keys[order[j + 1]]);
    }
  }

  /**
   * The first sorted position has a maximal score and is never returned;
   * every other position that is not returned scores no higher than any
   * returned one.
   */
  lemma TopLeavesOutBest(scores: seq<int>, topK: int)
    requires |scores| > 0
    ensures Descending(scores)[0] !in TopPositions(scores, topK)
    ensures forall j :: 0 <= j < |scores| ==> scores[j] <= scores[Descending(scores)[0]]
    ensures forall j, i :: 0 <= j < |scores| && j != Descending(scores)[0] && j !in TopPositions(scores, topK) && 0 <= i < |TopPositions(scores, topK)| ==>
      scores[j] <= scores[TopPositions(scores, topK)[i]]
  {
    PermutationFacts(Descending(scores), |scores|);
    TopIsSlice(scores, topK);
    DescendingFirstIsBest(scores);
    LeftOutScoresLower(scores, topK);
  }

  /** The first sorted position has a maximal score. */
  lemma DescendingFirstIsBest(scores: seq<int>)
    requires |scores| > 0
    ensures forall j :: 0 <= j < |scores| ==> scores[j] <= scores[Descending(scores)[0]]
  {
    var n := |scores|;
    var keys := NumKeys(scores);
    var order := Descending(scores);
    PermutationFacts(order, n);
    forall j | 0 <= j < n ensures scores[j] <= scores[order[0]] {
      assert j in order;
      var m :| 0 <= m < n && order[m] == j;
      if m > 0 {
        assert KeyGe(keys[order[0]], keys[order[m]]);
      }
    }
  }

  /** A position other than the first sorted one that is not returned scores no higher than any returned one. */
  lemma LeftOutScoresLower(scores: seq<int>, topK: int)
    requires |scores| > 0
    ensures forall j, i :: 0 <= j < |scores| && j != Descending(scores)[0] && j !in TopPositions(scores, topK) && 0 <= i < |TopPositions(scores, topK)| ==>
      scores[j] <= scores[TopPositions(scores, topK)[i]]
  {
    var n := |scores|;
    var keys := NumKeys(scores);
    var order := Descending(scores);
    var pos := TopPositions(scores, topK);
    PermutationFacts(order, n);
    TopIsSlice(scores, topK);
    forall j, i | 0 <= j < n && j != order[0] && j !in pos && 0 <= i < |pos| ensures scores[j] <= scores[pos[i]] {
      assert j in order;
      var m :| 0 <= m < n && order[m] == j;
      assert m != 0;
      assert KeyGe(keys[order[i + 1]], keys[order[m]]);
    }
  }

  /** `df.iloc[pos].copy().assign(score=scores[pos])`; a position past the table raises IndexError. */
  function WithScores(df: Table, pos: seq<nat>, scores: seq<int>): (r: Option<Table>)
    requires InRange(pos, |scores|)
  {
    if forall k :: 0 <= k < |pos| ==> pos[k] < |df.rows| then
      Some(Table(if "score" in df.columns then df.columns else df.columns + ["score"],
                 df.objectColumns - {"score"},
                 seq(|pos|, k requires 0 <= k < |pos| => df.rows[pos[k]]["score" := Num(scores[pos[k]])])))
    else
      None
  }

  /** The result rows are the table's rows at `pos`, in that order, each with its own score. */
  ghost predicate ScoredRows(df: Table, pos: seq<nat>, scores: seq<int>, out: Table)
    requires InRange(pos, |scores|)
  {
    && "score" in out.columns
    && |out.rows| == |pos|
    && forall k :: 0 <= k < |pos| ==> pos[k] < |df.rows| && out.rows[k] == df.rows[pos[k]]["score" := Num(scores[pos[k]])]
  }

  /** Joining positions back to rows: it fails exactly when a position is past the table. */
  lemma WithScoresSpec(df: Table, pos: seq<nat>, scores: seq<int>)
    requires InRange(pos, |scores|)
    ensures WithScores(df, pos, scores).Some? <==> forall k :: 0 <= k < |pos| ==> pos[k] < |df.rows|
    ensures WithScores(df, pos, scores).Some? ==> ScoredRows(df, pos, scores, WithScores(df, pos, scores).value)
  {
  }

  /**
   * `assign(score=...)` on a well-formed table gives a well-formed table:
   * `score` is appended as the last column unless the table already had one,
   * which is then overwritten in place and becomes numeric.
   */
  lemma WithScoresTable(df: Table, pos: seq<nat>, scores: seq<int>)
    requires WellFormed(df) && InRange(pos, |scores|)
    requires WithScores(df, pos, scores).Some?
    ensures var out := WithScores(df, pos, scores).value;
      && WellFormed(out)
      && ("score" !in df.columns ==> out.columns == df.columns + ["score"])
      && ("score" in df.columns ==> out.columns == df.columns)
      && "score" !in out.objectColumns
  {
    var out := WithScores(df, pos, scores).value;
    if "score" in df.columns {
      assert ColumnSet(out) == ColumnSet(df);
      AddMember(ColumnSet(df), "score");
    } else {
      assert ColumnSet(out) == ColumnSet(df) + {"score"};
    }
    forall k | 0 <= k < |out.rows| ensures out.rows[k].Keys == ColumnSet(out) {
      assert out.rows[k].Keys == df.rows[pos[k]].Keys + {"score"};
    }
  }

  /** Rows joined in non-increasing score order carry a non-increasing `score` column. */
  lemma ScoredRowsDescend(df: Table, pos: seq<nat>, scores: seq<int>, out: Table)
    requires InRange(pos, |scores|) && ScoredRows(df, pos, scores, out)
    requires forall i, j :: 0 <= i < j < |pos| ==> scores[pos[i]] >= scores[pos[j]]
    ensures forall k :: 0 <= k < |out.rows| ==> "score" in out.rows[k] && out.rows[k]["score"].Num?
    ensures forall i, j :: 0 <= i < j < |out.rows| ==> out.rows[i]["score"].n >= out.rows[j]["score"].n
  {
    forall i, j | 0 <= i < j < |out.rows| ensures out.rows[i]["score"].n >= out.rows[j]["score"].n {
      assert out.rows[i]["score"] == Num(scores[pos[i]]);
      assert out.rows[j]["score"] == Num(scores[pos[j]]);
    }
  }

  /** An embedding row by numpy index: -N <= i < 0 counts from the end, anything else out of range raises. */
  function NumpyIndex(i: int, n: nat): (r: Option<nat>)
    ensures r.Some? <==> -(n as int) <= i < n
    ensures r.Some? ==> r.value < n && (0 <= i ==> r.value == i) && (i < 0 ==> r.value == n + i)
  {
    if 0 <= i < n then Some(i) else if -(n as int) <= i < 0 then Some(n + i) else None
  }
}
