/**
 * The catalog table: an ordered list of column names and a sequence of rows,
 * each row mapping every column name to a cell. Row labels are not kept:
 * every step of the catalog code that reorders or filters rows resets the
 * labels to 0..M-1, so a row's label is its position.
 */
module Tables {
  import opened Wrappers
  import opened Text

  /** A cell: missing (NaN/None), a string, or a number (modelled as an integer). */
  datatype Cell = Null | Str(s: string) | Num(n: int)

  type Row = map<string, Cell>

  /**
   * `objectColumns` records which columns have pandas dtype "object", the
   * only dtype information the catalog code inspects.
   */
  datatype Table = Table(columns: seq<string>, objectColumns: set<string>, rows: seq<Row>)

  function ColumnSet(t: Table): set<string>
  {
    set c | c in t.columns
  }

  /** Column names are distinct and every row has exactly the table's columns. */
  predicate WellFormed(t: Table)
  {
    && (forall i, j :: 0 <= i < j < |t.columns| ==> t.columns[i] != t.columns[j])
    && t.objectColumns <= ColumnSet(t)
    && (forall k :: 0 <= k < |t.rows| ==> t.rows[k].Keys == ColumnSet(t))
  }

  /** `astype(str)` of one cell: a missing value becomes the text "nan". */
  function ToStr(c: Cell): string
  {
    match c
    case Null => "nan"
    case Str(s) => s
    case Num(n) => IntToString(n)
  }

  /** `fillna("")` followed by string concatenation: a number cannot be concatenated. */
  function CellText(c: Cell): Option<string>
  {
    match c
    case Null => Some("")
    case Str(s) => Some(s)
    case Num(_) => None
  }

  /** `pd.DataFrame({"title": titles})`. */
  function TitleTable(titles: seq<string>): (t: Table)
    ensures WellFormed(t) && t.columns == ["title"] && |t.rows| == |titles|
    ensures forall k :: 0 <= k < |titles| ==> t.rows[k]["title"] == Str(titles[k])
  {
    Table(["title"], {"title"}, seq(|titles|, k requires 0 <= k < |titles| => map["title" := Str(titles[k])]))
  }

  /** The cells of column `c`, in row order. */
  function Column(t: Table, c: string): (cells: seq<Cell>)
    requires WellFormed(t) && c in t.columns
    ensures |cells| == |t.rows|
    ensures forall k :: 0 <= k < |t.rows| ==> cells[k] == t.rows[k][c]
  {
    seq(|t.rows|, k requires 0 <= k < |t.rows| => t.rows[k][c])
  }

  /** `df.rename(columns={from: to})`: same position, same cells, new name. */
  function Rename(t: Table, from: string, to: string): (r: Table)
    requires WellFormed(t) && from in t.columns && to !in t.columns
    ensures WellFormed(r) && |r.columns| == |t.columns| && |r.rows| == |t.rows|
    ensures forall i :: 0 <= i < |t.columns| ==>
      r.columns[i] == (if t.columns[i] == from then to else t.columns[i])
    ensures forall k :: 0 <= k < |t.rows| ==> r.rows[k][to] == t.rows[k][from]
    ensures forall k, c :: 0 <= k < |t.rows| && c in t.columns && c != from ==> r.rows[k][c] == t.rows[k][c]
    ensures (to in r.objectColumns) == (from in t.objectColumns)
    ensures from !in r.objectColumns
    ensures forall x :: x != from && x != to ==> (x in r.objectColumns <==> x in t.objectColumns)
  {
    var cols := RenameColumns(t.columns, from, to);
    var objs := if from in t.objectColumns then t.objectColumns - {from} + {to} else t.objectColumns;
    var rows := seq(|t.rows|, k requires 0 <= k < |t.rows| => RenameRow(t.rows[k], from, to));
    var r := Table(cols, objs, rows);
    RenameColumnSet(t.columns, from, to);
    assert ColumnSet(r) == ColumnSet(t) - {from} + {to};
    r
  }

  function RenameColumns(cols: seq<string>, from: string, to: string): (r: seq<string>)
    ensures |r| == |cols|
    ensures forall i :: 0 <= i < |cols| ==> r[i] == (if cols[i] == from then to else cols[i])
  {
    seq(|cols|, i requires 0 <= i < |cols| => if cols[i] == from then to else cols[i])
  }

  /** Renaming a present column swaps one name in the set of names. */
  lemma RenameColumnSet(cols: seq<string>, from: string, to: string)
    requires from in cols
    ensures (set c | c in RenameColumns(cols, from, to)) == (set c | c in cols) - {from} + {to}
  {
    var r := RenameColumns(cols, from, to);
    forall c | c in (set c | c in cols) - {from} + {to} ensures c in r {
      if c == to {
        var i :| 0 <= i < |cols| && cols[i] == from;
        assert r[i] == to;
      } else {
        var i :| 0 <= i < |cols| && cols[i] == c;
        assert r[i] == c;
      }
    }
  }

  /** One row under the rename: the cell moves from the old key to the new one. */
  function RenameRow(row: Row, from: string, to: string): (r: Row)
    requires from in row
    ensures r.Keys == row.Keys - {from} + {to}
    ensures r[to] == row[from]
    ensures forall c :: c in row && c != from && c != to ==> r[c] == row[c]
  {
    (row - {from})[to := row[from]]
  }

  /** `df[c] = cells` for a column `c` the table does not have yet: appended as the last column. */
  function AddColumn(t: Table, c: string, cells: seq<Cell>, isObject: bool): (r: Table)
    requires WellFormed(t) && c !in t.columns && |cells| == |t.rows|
    ensures WellFormed(r) && r.columns == t.columns + [c] && |r.rows| == |t.rows|
    ensures forall k :: 0 <= k < |t.rows| ==> r.rows[k] == t.rows[k][c := cells[k]]
    ensures (c in r.objectColumns) == isObject
    ensures forall x :: x != c ==> (x in r.objectColumns <==> x in t.objectColumns)
  {
    var r := Table(t.columns + [c], if isObject then t.objectColumns + {c} else t.objectColumns,
                   seq(|t.rows|, k requires 0 <= k < |t.rows| => t.rows[k][c := cells[k]]));
    assert ColumnSet(r) == ColumnSet(t) + {c};
    r
  }

  /** Python slice bound: a negative bound counts from the end; both are clamped to 0..n. */
  function SliceBound(i: int, n: nat): (b: nat)
    ensures b <= n
    ensures 0 <= i ==> b == (if i < n then i else n)
  {
    if i < 0 then (if n + i < 0 then 0 else n + i) else if i > n then n else i
  }

  /** `s[start:stop]` with Python's semantics for negative and out-of-range bounds. */
  function PySlice<T>(s: seq<T>, start: int, stop: int): seq<T>
  {
    var a := SliceBound(start, |s|);
    var b := SliceBound(stop, |s|);
    if a <= b then s[a..b] else []
  }

  /** `df.head(n)`: the first n rows; a negative n drops the last -n rows. */
  function Head(t: Table, n: int): (r: Table)
    ensures r.columns == t.columns && r.objectColumns == t.objectColumns
  {
    t.(rows := PySlice(t.rows, 0, n))
  }

  /** For a non-negative n, Head keeps exactly the first min(n, M) rows. */
  lemma HeadPrefix(t: Table, n: int)
    requires n >= 0
    ensures Head(t, n).rows == t.rows[..if n < |t.rows| then n else |t.rows|]
  {
  }

  /** `df.fillna("")`: every missing cell becomes the empty string. */
  function FillNa(t: Table): (r: Table)
    ensures r.columns == t.columns && |r.rows| == |t.rows|
    ensures forall k :: 0 <= k < |t.rows| ==> r.rows[k].Keys == t.rows[k].Keys
    ensures forall k, c :: 0 <= k < |t.rows| && c in t.rows[k] ==>
      r.rows[k][c] == (if t.rows[k][c] == Null then Str("") else t.rows[k][c])
  {
    t.(rows := seq(|t.rows|, k requires 0 <= k < |t.rows| =>
          map c | c in t.rows[k] :: if t.rows[k][c] == Null then Str("") else t.rows[k][c]))
  }

  /** `df.loc[labels].reset_index(drop=True)`; a label the table lacks raises KeyError (None). */
  function Select(t: Table, labels: seq<int>): (r: Option<Table>)
    ensures r.Some? <==> forall k :: 0 <= k < |labels| ==> 0 <= labels[k] < |t.rows|
    ensures r.Some? ==> r.value.columns == t.columns && r.value.objectColumns == t.objectColumns
    ensures r.Some? ==> |r.value.rows| == |labels|
    ensures r.Some? ==> forall k :: 0 <= k < |labels| ==> r.value.rows[k] == t.rows[labels[k]]
  {
    if forall k :: 0 <= k < |labels| ==> 0 <= labels[k] < |t.rows| then
      Some(t.(rows := seq(|labels|, k requires 0 <= k < |labels| => t.rows[labels[k]])))
    else
      None
  }

  /** The labels 0..n-1. */
  function Range(n: nat): (r: seq<int>)
    ensures |r| == n && forall k :: 0 <= k < n ==> r[k] == k
  {
    seq(n, k => k)
  }

  /** Selecting the labels 0..M-1 gives the table back unchanged. */
  lemma SelectRange(t: Table)
    ensures Select(t, Range(|t.rows|)) == Some(t)
  {
    assert Select(t, Range(|t.rows|)).value.rows == t.rows;
  }

  /** A row survives cleaning when its title is a non-empty string. */
  predicate HasTitle(r: Row)
  {
    "title" in r && r["title"].Str? && r["title"].s != []
  }

  /** `df[df["title"].str.len() > 0]`, in row order. */
  function KeepTitled(rows: seq<Row>): seq<Row>
  {
    if rows == [] then [] else (if HasTitle(rows[0]) then [rows[0]] else []) + KeepTitled(rows[1..])
  }

  /** `a` is `b` with some elements removed, the rest in their original order. */
  predicate IsSubsequence<T(==)>(a: seq<T>, b: seq<T>)
  {
    a == [] || (b != [] && ((a[0] == b[0] && IsSubsequence(a[1..], b[1..])) || IsSubsequence(a, b[1..])))
  }

  /**
   * Filtering keeps exactly the titled rows: each kept row has a non-empty
   * title, the kept rows are the input with some rows removed and the rest in
   * order, and no titled row is lost: each titled row is kept as many times
   * as it occurs.
   */
  lemma KeepTitledSpec(rows: seq<Row>)
    ensures forall k :: 0 <= k < |KeepTitled(rows)| ==> HasTitle(KeepTitled(rows)[k])
    ensures IsSubsequence(KeepTitled(rows), rows)
    ensures forall r :: r in rows && HasTitle(r) ==> r in KeepTitled(rows)
    ensures forall r :: r in KeepTitled(rows) ==> r in rows
    ensures |KeepTitled(rows)| <= |rows|
    ensures forall r :: multiset(KeepTitled(rows))[r] == if HasTitle(r) then multiset(rows)[r] else 0
  {
    KeepTitledOrder(rows);
    KeepTitledCounts(rows);
  }

  /** The filter's order facts, by induction on the rows. */
  lemma {:induction false} KeepTitledOrder(rows: seq<Row>)
    ensures forall k :: 0 <= k < |KeepTitled(rows)| ==> HasTitle(KeepTitled(rows)[k])
    ensures IsSubsequence(KeepTitled(rows), rows)
    ensures forall r :: r in rows && HasTitle(r) ==> r in KeepTitled(rows)
    ensures forall r :: r in KeepTitled(rows) ==> r in rows
    ensures |KeepTitled(rows)| <= |rows|
  {
    if rows != [] {
      KeepTitledOrder(rows[1..]);
      var rest := KeepTitled(rows[1..]);
      if HasTitle(rows[0]) {
        assert KeepTitled(rows) == [rows[0]] + rest;
        assert ([rows[0]] + rest)[1..] == rest;
      } else {
        assert KeepTitled(rows) == rest;
        if rest != [] {
          assert IsSubsequence(rest, rows[1..]);
        }
      }
      forall r | r in rows && HasTitle(r) ensures r in KeepTitled(rows) {
        if r != rows[0] {
          assert r in rows[1..];
        }
      }
    }
  }

  /** Every kept row is titled and comes from the input. */
  lemma {:induction false} KeepTitledFromInput(rows: seq<Row>)
    ensures forall k :: 0 <= k < |KeepTitled(rows)| ==> HasTitle(KeepTitled(rows)[k])
    ensures forall r :: r in KeepTitled(rows) ==> r in rows
  {
    if rows != [] {
      KeepTitledFromInput(rows[1..]);
    }
  }

  /** Each titled row is kept exactly as many times as it occurs; an untitled row never is. */
  lemma {:induction false} KeepTitledCounts(rows: seq<Row>)
    ensures forall r :: multiset(KeepTitled(rows))[r] == if HasTitle(r) then multiset(rows)[r] else 0
  {
    if rows != [] {
      KeepTitledCounts(rows[1..]);
      assert rows == [rows[0]] + rows[1..];
      assert multiset(rows) == multiset([rows[0]]) + multiset(rows[1..]);
    }
  }

  /** Filtering rows that are all titled changes nothing. */
  lemma {:induction false} KeepTitledAll(rows: seq<Row>)
    requires forall k :: 0 <= k < |rows| ==> HasTitle(rows[k])
    ensures KeepTitled(rows) == rows
  {
    if rows != [] {
      KeepTitledAll(rows[1..]);
    }
  }

  /** Every row of a filtered sequence has the keys all input rows have. */
  lemma {:induction false} KeepTitledKeys(rows: seq<Row>, keys: set<string>)
    requires forall k :: 0 <= k < |rows| ==> rows[k].Keys == keys
    ensures forall k :: 0 <= k < |KeepTitled(rows)| ==> KeepTitled(rows)[k].Keys == keys
  {
    if rows != [] {
      KeepTitledKeys(rows[1..], keys);
    }
  }

  /** The title cell after `astype(str).str.strip()`. */
  function CleanTitleCell(c: Cell): Cell
  {
    Str(Strip(ToStr(c)))
  }

  /** One row with its title replaced by the stripped string form of the title. */
  function Retitled(row: Row): (r: Row)
    requires "title" in row
    ensures r.Keys == row.Keys
  {
    row["title" := CleanTitleCell(row["title"])]
  }

  /** Each row with its title replaced by the stripped string form of the title. */
  function StripTitleRows(t: Table): (rows: seq<Row>)
    requires WellFormed(t) && "title" in t.columns
    ensures |rows| == |t.rows|
    ensures forall k :: 0 <= k < |t.rows| ==> rows[k] == Retitled(t.rows[k])
  {
    TitleInEveryRow(t);
    RetitleAll(t.rows)
  }

  function RetitleAll(rows: seq<Row>): (r: seq<Row>)
    requires forall k :: 0 <= k < |rows| ==> "title" in rows[k]
    ensures |r| == |rows|
    ensures forall k :: 0 <= k < |rows| ==> r[k] == Retitled(rows[k])
  {
    seq(|rows|, k requires 0 <= k < |rows| => Retitled(rows[k]))
  }

  lemma TitleInEveryRow(t: Table)
    requires WellFormed(t) && "title" in t.columns
    ensures forall k :: 0 <= k < |t.rows| ==> "title" in t.rows[k]
  {
    assert "title" in ColumnSet(t);
  }

  /** Rewriting titles keeps every row's columns. */
  lemma StripTitleRowsKeys(t: Table)
    requires WellFormed(t) && "title" in t.columns
    ensures forall k :: 0 <= k < |t.rows| ==> StripTitleRows(t)[k].Keys == ColumnSet(t)
  {
  }

  /**
   * `df["title"] = df["title"].astype(str).str.strip()` followed by
   * `df = df[df["title"].str.len() > 0].reset_index(drop=True)`.
   */
  function CleanTitles(t: Table): (r: Table)
    requires WellFormed(t) && "title" in t.columns
    ensures WellFormed(r) && r.columns == t.columns && "title" in r.objectColumns
  {
    var rows := StripTitleRows(t);
    StripTitleRowsKeys(t);
    KeepTitledKeys(rows, ColumnSet(t));
    var r := Table(t.columns, t.objectColumns + {"title"}, KeepTitled(rows));
    assert ColumnSet(r) == ColumnSet(t);
    r
  }

  /** A string cell holding only whitespace: the only title that cleaning drops. */
  predicate BlankText(c: Cell)
  {
    c.Str? && forall i :: 0 <= i < |c.s| ==> IsSpace(c.s[i])
  }

  /** A row is clean when its title is a stripped, non-empty string. */
  predicate CleanTitle(r: Row)
  {
    HasTitle(r) && IsStripped(r["title"].s)
  }

  /**
   * After cleaning, every title is a stripped, non-empty string, and the rows
   * are the title-rewritten input rows with some removed and the rest in
   * their original order.
   */
  lemma CleanTitlesClean(t: Table)
    requires WellFormed(t) && "title" in t.columns
    ensures forall k :: 0 <= k < |CleanTitles(t).rows| ==> CleanTitle(CleanTitles(t).rows[k])
    ensures IsSubsequence(CleanTitles(t).rows, StripTitleRows(t))
  {
    CleanTitlesRows(t);
    KeepTitledSpec(StripTitleRows(t));
    KeptTitlesClean(t);
  }

  /**
   * Cleaning drops a row exactly when its title cell was a string of
   * whitespace only; a missing or numeric title survives (as "nan" or as its
   * digits), and every surviving row is kept, as many times as it occurs.
   */
  lemma CleanTitlesKeeps(t: Table)
    requires WellFormed(t) && "title" in t.columns
    ensures forall k :: 0 <= k < |t.rows| ==> (HasTitle(StripTitleRows(t)[k]) <==> !BlankText(t.rows[k]["title"]))
    ensures forall k :: 0 <= k < |t.rows| && !BlankText(t.rows[k]["title"]) ==>
      StripTitleRows(t)[k] in CleanTitles(t).rows
    ensures forall r :: multiset(CleanTitles(t).rows)[r] == if HasTitle(r) then multiset(StripTitleRows(t))[r] else 0
  {
    var rows := StripTitleRows(t);
    CleanTitlesRows(t);
    KeepTitledCounts(rows);
    StrippedTitleRows(t);
    forall k | 0 <= k < |t.rows| && !BlankText(t.rows[k]["title"]) ensures rows[k] in CleanTitles(t).rows {
      assert rows[k] in multiset(rows);
    }
  }

  lemma CleanTitlesRows(t: Table)
    requires WellFormed(t) && "title" in t.columns
    ensures CleanTitles(t).rows == KeepTitled(StripTitleRows(t))
  {
  }

  lemma CleanTitlesParts(t: Table)
    requires WellFormed(t) && "title" in t.columns
    ensures CleanTitles(t) == Table(t.columns, t.objectColumns + {"title"}, KeepTitled(StripTitleRows(t)))
  {
  }

  lemma KeptTitlesClean(t: Table)
    requires WellFormed(t) && "title" in t.columns
    ensures forall k :: 0 <= k < |KeepTitled(StripTitleRows(t))| ==> CleanTitle(KeepTitled(StripTitleRows(t))[k])
  {
    var rows := StripTitleRows(t);
    KeepTitledFromInput(rows);
    StrippedTitleRows(t);
    forall k | 0 <= k < |KeepTitled(rows)| ensures CleanTitle(KeepTitled(rows)[k]) {
      assert KeepTitled(rows)[k] in rows;
    }
  }

  /** Every rewritten title is stripped, and it is non-empty exactly when the old one was not blank. */
  lemma StrippedTitleRows(t: Table)
    requires WellFormed(t) && "title" in t.columns
    ensures forall k :: 0 <= k < |t.rows| ==> IsStripped(StripTitleRows(t)[k]["title"].s)
    ensures forall k :: 0 <= k < |t.rows| ==> (HasTitle(StripTitleRows(t)[k]) <==> !BlankText(t.rows[k]["title"]))
  {
    var rows: seq<Row> := StripTitleRows(t);
    forall k | 0 <= k < |t.rows|
      ensures IsStripped(rows[k]["title"].s)
      ensures HasTitle(rows[k]) <==> !BlankText(t.rows[k]["title"])
    {
      CleanTitleCellSpec(t.rows[k]["title"]);
    }
  }

  /** The cleaned title is stripped, and it is empty exactly when the cell held only whitespace. */
  lemma CleanTitleCellSpec(c: Cell)
    ensures IsStripped(CleanTitleCell(c).s)
    ensures CleanTitleCell(c).s == [] <==> BlankText(c)
  {
    StripSpec(ToStr(c));
    StripEmptyIff(ToStr(c));
    if !c.Str? {
      assert !IsSpace(ToStr(c)[0]);
    }
  }

  /** Cleaning a table whose titles are already clean changes nothing. */
  lemma CleanTitlesIdempotent(t: Table)
    requires WellFormed(t) && "title" in t.columns && "title" in t.objectColumns
    requires forall k :: 0 <= k < |t.rows| ==> CleanTitle(t.rows[k])
    ensures CleanTitles(t) == t
  {
    CleanRowsUnchanged(t);
    CleanTitlesParts(t);
    AddMember(t.objectColumns, "title");
  }

  lemma AddMember<T>(s: set<T>, x: T)
    requires x in s
    ensures s + {x} == s
  {
  }

  lemma CleanRowsUnchanged(t: Table)
    requires WellFormed(t) && "title" in t.columns
    requires forall k :: 0 <= k < |t.rows| ==> CleanTitle(t.rows[k])
    ensures KeepTitled(StripTitleRows(t)) == t.rows
  {
    StripTitleRowsClean(t);
    KeepTitledAll(t.rows);
  }

  /** Rewriting titles that are already clean leaves every row as it was. */
  lemma StripTitleRowsClean(t: Table)
    requires WellFormed(t) && "title" in t.columns
    requires forall k :: 0 <= k < |t.rows| ==> CleanTitle(t.rows[k])
    ensures StripTitleRows(t) == t.rows
    ensures forall k :: 0 <= k < |t.rows| ==> HasTitle(t.rows[k])
  {
    RetitleAllClean(t.rows);
  }

  lemma RetitleAllClean(rows: seq<Row>)
    requires forall k :: 0 <= k < |rows| ==> CleanTitle(rows[k])
    ensures forall k :: 0 <= k < |rows| ==> "title" in rows[k]
    ensures RetitleAll(rows) == rows
  {
    forall k | 0 <= k < |rows| ensures RetitleAll(rows)[k] == rows[k] {
      RetitledClean(rows[k]);
    }
  }

  lemma RetitledClean(row: Row)
    requires CleanTitle(row)
    ensures Retitled(row) == row
  {
    StripStripped(row["title"].s);
    assert row["title"] == CleanTitleCell(row["title"]);
  }
}
