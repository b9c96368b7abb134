/**
 * Descending sort by a key column, as `np.argsort(...)[::-1]` and
 * `sort_values(ascending=False)` order rows: larger keys first, missing keys
 * last. Neither library sort is stable, so the contracts below claim only that
 * keys are non-increasing, never which of two equal keys comes first.
 */
module Ordering {
  import opened Tables
  import opened Text

  /**
   * `a` may come before `b` in a descending order. Missing values go last;
   * numbers compare by value and strings lexicographically. Strings are put
   * before numbers only to make the order total: a column that mixes them is
   * never sorted (pandas raises TypeError, see Comparable).
   */
  predicate KeyGe(a: Cell, b: Cell)
  {
    match (a, b)
    case (_, Null) => true
    case (Null, _) => false
    case (Num(x), Num(y)) => x >= y
    case (Str(x), Str(y)) => StrLe(y, x)
    case (Str(_), Num(_)) => true
    case (Num(_), Str(_)) => false
  }

  lemma KeyGeTotal(a: Cell, b: Cell)
    ensures KeyGe(a, b) || KeyGe(b, a)
  {
    if a.Str? && b.Str? {
      StrLeTotal(a.s, b.s);
    }
  }

  lemma KeyGeTransitive(a: Cell, b: Cell, c: Cell)
    requires KeyGe(a, b) && KeyGe(b, c)
    ensures KeyGe(a, c)
  {
    if a.Str? && b.Str? && c.Str? {
      StrLeTransitive(c.s, b.s, a.s);
    }
  }

  /** pandas can order a column holding only numbers and gaps, or only strings and gaps. */
  predicate Comparable(keys: seq<Cell>)
  {
    (forall i :: 0 <= i < |keys| ==> !keys[i].Str?) || (forall i :: 0 <= i < |keys| ==> !keys[i].Num?)
  }

  predicate InRange(p: seq<nat>, n: nat)
  {
    forall i :: 0 <= i < |p| ==> p[i] < n
  }

  /** Positions `p` list keys in non-increasing order. */
  predicate SortedDesc(keys: seq<Cell>, p: seq<nat>)
    requires InRange(p, |keys|)
  {
    forall i, j :: 0 <= i < j < |p| ==> KeyGe(keys[p[i]], keys[p[j]])
  }

  /** The positions 0..n-1. */
  function Positions(n: nat): (p: seq<nat>)
    ensures |p| == n && forall i :: 0 <= i < n ==> p[i] == i
  {
    seq(n, i => i)
  }

  /** Insert position `x` after every position whose key is at least as large. */
  function Insert(keys: seq<Cell>, x: nat, s: seq<nat>): (r: seq<nat>)
    requires x < |keys| && InRange(s, |keys|)
    ensures |r| == |s| + 1 && InRange(r, |keys|)
    ensures multiset(r) == multiset(s) + multiset{x}
  {
    if s == [] then [x]
    else if KeyGe(keys[s[0]], keys[x]) then
      assert s == [s[0]] + s[1..];
      [s[0]] + Insert(keys, x, s[1..])
    else [x] + s
  }

  /** Insertion keeps a descending sequence descending. */
  lemma {:induction false} InsertSorted(keys: seq<Cell>, x: nat, s: seq<nat>)
    requires x < |keys| && InRange(s, |keys|) && SortedDesc(keys, s)
    ensures SortedDesc(keys, Insert(keys, x, s))
  {
    if s != [] {
      var r := Insert(keys, x, s);
      if KeyGe(keys[s[0]], keys[x]) {
        var rest := Insert(keys, x, s[1..]);
        InsertSorted(keys, x, s[1..]);
        assert r == [s[0]] + rest;
        forall j | 0 < j < |r| ensures KeyGe(keys[s[0]], keys[r[j]]) {
          assert r[j] in multiset(rest);
          assert r[j] in multiset(s[1..]) + multiset{x};
          if r[j] != x {
            var m :| 0 <= m < |s[1..]| && s[1..][m] == r[j];
            assert s[m + 1] == r[j];
          }
        }
      } else {
        KeyGeTotal(keys[s[0]], keys[x]);
        forall j | 0 < j < |r| ensures KeyGe(keys[x], keys[r[j]]) {
          if j > 1 {
            KeyGeTransitive(keys[x], keys[s[0]], keys[s[j - 1]]);
          }
        }
      }
    }
  }

  /** Insertion sort of the positions 0..n-1. */
  function SortPrefix(keys: seq<Cell>, n: nat): (p: seq<nat>)
    requires n <= |keys|
    ensures |p| == n && InRange(p, |keys|)
    ensures multiset(p) == multiset(Positions(n))
    ensures SortedDesc(keys, p)
  {
    if n == 0 then []
    else
      assert Positions(n) == Positions(n - 1) + [n - 1];
      var q := SortPrefix(keys, n - 1);
      InsertSorted(keys, n - 1, q);
      Insert(keys, n - 1, q)
  }

  /** The positions of `keys`, largest key first, missing keys last. */
  function ArgSortDesc(keys: seq<Cell>): (p: seq<nat>)
    ensures |p| == |keys| && InRange(p, |keys|)
    ensures multiset(p) == multiset(Positions(|keys|))
    ensures SortedDesc(keys, p)
  {
    SortPrefix(keys, |keys|)
  }

  /** Each of 0..n-1 occurs exactly once among Positions(n). */
  lemma {:induction false} PositionsCount(n: nat, x: nat)
    ensures multiset(Positions(n))[x] == if x < n then 1 else 0
  {
    if n > 0 {
      assert Positions(n) == Positions(n - 1) + [n - 1];
      PositionsCount(n - 1, x);
    }
  }

  /**
   * A sequence with the multiset of 0..n-1 is a permutation of them: every
   * position occurs, and no position occurs twice.
   */
  lemma PermutationFacts(p: seq<nat>, n: nat)
    requires multiset(p) == multiset(Positions(n))
    ensures |p| == n
    ensures forall x :: 0 <= x < n ==> x in p
    ensures forall i, j :: 0 <= i < j < |p| ==> p[i] != p[j]
  {
    assert |p| == |multiset(p)| == |multiset(Positions(n))| == n;
    forall x | 0 <= x < n ensures x in p {
      PositionsCount(n, x);
      assert x in multiset(p);
    }
    forall i, j | 0 <= i < j < |p| ensures p[i] != p[j] {
      if p[i] == p[j] {
        CountTwice(p, i, j);
        PositionsCount(n, p[i]);
      }
    }
  }

  /**
   * `pos` picks rows by key: distinct positions in non-increasing key order,
   * and every position left out has a key no larger than any picked one.
   */
  ghost predicate TopByKey(keys: seq<Cell>, pos: seq<nat>)
  {
    && InRange(pos, |keys|)
    && (forall i, j :: 0 <= i < j < |pos| ==> pos[i] != pos[j])
    && (forall i, j :: 0 <= i < j < |pos| ==> KeyGe(keys[pos[i]], keys[pos[j]]))
    && (forall j, i :: 0 <= j < |keys| && j !in pos && 0 <= i < |pos| ==> KeyGe(keys[pos[i]], keys[j]))
  }

  /** The first n positions of the descending order are the n largest keys. */
  lemma SortedPrefixTop(keys: seq<Cell>, n: int)
    ensures TopByKey(keys, Tables.PySlice(ArgSortDesc(keys), 0, n))
  {
    var order := ArgSortDesc(keys);
    var pos := Tables.PySlice(order, 0, n);
    PermutationFacts(order, |keys|);
    assert pos == order[..|pos|];
    PrefixTop(keys, order, |pos|);
  }

  /** A prefix of a descending order of every distinct position picks the largest keys. */
  lemma PrefixTop(keys: seq<Cell>, order: seq<nat>, len: nat)
    requires InRange(order, |keys|) && SortedDesc(keys, order) && len <= |order|
    requires forall x :: 0 <= x < |keys| ==> x in order
    requires forall i, j :: 0 <= i < j < |order| ==> order[i] != order[j]
    ensures TopByKey(keys, order[..len])
  {
    PrefixDominates(keys, order, len);
  }

  /** In a descending order of every position, each position past the first `len` has a key no larger than those before. */
  lemma PrefixDominates(keys: seq<Cell>, order: seq<nat>, len: nat)
    requires InRange(order, |keys|) && SortedDesc(keys, order) && len <= |order|
    requires forall x :: 0 <= x < |keys| ==> x in order
    ensures forall j, i :: 0 <= j < |keys| && j !in order[..len] && 0 <= i < len ==> KeyGe(keys[order[i]], keys[j])
  {
    assert forall q :: 0 <= q < len ==> order[..len][q] == order[q];
    forall j, i | 0 <= j < |keys| && j !in order[..len] && 0 <= i < len ensures KeyGe(keys[order[i]], keys[j]) {
      assert j in order;
      var m :| 0 <= m < |order| && order[m] == j;
      assert len <= m;
    }
  }

  lemma CountTwice(p: seq<nat>, i: nat, j: nat)
    requires i < j < |p| && p[i] == p[j]
    ensures multiset(p)[p[i]] >= 2
  {
    assert p == p[..i] + [p[i]] + p[i + 1..];
    assert p[j] in p[i + 1..];
  }
}
