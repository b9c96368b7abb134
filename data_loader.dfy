/**
 * The catalog loader: read `data/<kind>.csv`, fall back to treating the
 * file as plain lines, then normalise the table so that it has a clean
 * `title` column.
 *
 * CSV parsing and the encoding retries are not modelled: a CatalogFile
 * carries their outcomes.
 */
module DataLoader {
  import opened Wrappers
  import opened Text
  import opened Tables

  /**
   * What the file system and pandas give the loader: whether the file exists,
   * the table `pd.read_csv` produced under the first encoding that worked
   * (None when every encoding failed), the file's text split into lines, and
   * the result of re-parsing the cleaned lines as CSV (None when that raised).
   */
  datatype CatalogFile = CatalogFile(present: bool, parsed: Option<Table>, lines: seq<string>, reparsed: Option<Table>)

  datatype LoadError =
    | FileNotFound(path: string)  // the catalog file does not exist
    | NoColumns                   // `df.iloc[:, 0]` on a table without columns raises IndexError

  /** pandas hands over well-formed tables (read_csv renames duplicate headers). */
  predicate ValidFile(f: CatalogFile)
  {
    (f.parsed.Some? ==> WellFormed(f.parsed.value)) && (f.reparsed.Some? ==> WellFormed(f.reparsed.value))
  }

  function CatalogPath(kind: string): string
  {
    "data/" + kind + ".csv"
  }

  /** `[l.strip() for l in lines if l.strip()]`. */
  function CleanLines(raw: seq<string>): seq<string>
  {
    if raw == [] then []
    else (if Strip(raw[0]) != [] then [Strip(raw[0])] else []) + CleanLines(raw[1..])
  }

  function StripAll(raw: seq<string>): (s: seq<string>)
    ensures |s| == |raw| && forall i :: 0 <= i < |raw| ==> s[i] == Strip(raw[i])
  {
    seq(|raw|, i requires 0 <= i < |raw| => Strip(raw[i]))
  }

  /** Every cleaned line is non-empty and has no surrounding whitespace. */
  lemma {:induction false} CleanLinesStripped(raw: seq<string>)
    ensures forall i :: 0 <= i < |CleanLines(raw)| ==> CleanLines(raw)[i] != [] && IsStripped(CleanLines(raw)[i])
  {
    if raw != [] {
      CleanLinesStripped(raw[1..]);
      StripSpec(raw[0]);
    }
  }

  /** The cleaned lines are the stripped lines with some removed and the rest in order. */
  lemma {:induction false} CleanLinesInOrder(raw: seq<string>)
    ensures IsSubsequence(CleanLines(raw), StripAll(raw))
  {
    if raw != [] {
      CleanLinesInOrder(raw[1..]);
      var rest := CleanLines(raw[1..]);
      StripAllTail(raw);
      if Strip(raw[0]) != [] {
        assert CleanLines(raw) == [Strip(raw[0])] + rest;
        assert CleanLines(raw)[1..] == rest;
      } else if rest != [] {
        assert CleanLines(raw) == rest;
      }
    }
  }

  /** No line that is not blank is lost, and each is kept as many times as it occurs. */
  lemma {:induction false} CleanLinesComplete(raw: seq<string>)
    ensures forall i :: 0 <= i < |raw| && Strip(raw[i]) != [] ==> Strip(raw[i]) in CleanLines(raw)
    ensures forall s :: multiset(CleanLines(raw))[s] == if s != [] then multiset(StripAll(raw))[s] else 0
  {
    CleanLinesCounts(raw);
    if raw != [] {
      CleanLinesComplete(raw[1..]);
      forall i | 0 <= i < |raw| && Strip(raw[i]) != [] ensures Strip(raw[i]) in CleanLines(raw) {
        if i > 0 {
          assert raw[i] == raw[1..][i - 1];
        }
      }
    }
  }

  /** Each non-empty stripped line is kept exactly as many times as it occurs; an empty one never is. */
  lemma CleanLinesCounts(raw: seq<string>)
    ensures forall s :: multiset(CleanLines(raw))[s] == if s != [] then multiset(StripAll(raw))[s] else 0
  {
    forall s {
      CleanLinesCount(raw, s);
    }
  }

  lemma {:induction false} CleanLinesCount(raw: seq<string>, s: string)
    ensures multiset(CleanLines(raw))[s] == if s != [] then multiset(StripAll(raw))[s] else 0
  {
    if raw != [] {
      CleanLinesCount(raw[1..], s);
      var head := Strip(raw[0]);
      var kept: seq<string> := if head != [] then [head] else [];
      StripAllTail(raw);
      MultisetSplit(StripAll(raw));
      assert multiset(CleanLines(raw)) == multiset(kept) + multiset(CleanLines(raw[1..]));
    }
  }

  lemma StripAllTail(raw: seq<string>)
    requires raw != []
    ensures StripAll(raw)[0] == Strip(raw[0])
    ensures StripAll(raw)[1..] == StripAll(raw[1..])
  {
    forall i | 0 <= i < |raw| - 1 ensures StripAll(raw)[1..][i] == StripAll(raw[1..])[i] {
      assert raw[1..][i] == raw[i + 1];
    }
  }

  /** A non-empty sequence counts as its first element plus the rest. */
  lemma MultisetSplit<T>(s: seq<T>)
    requires s != []
    ensures multiset(s) == multiset{s[0]} + multiset(s[1..])
  {
    assert s == [s[0]] + s[1..];
  }

  /** One title per line after the first, or the only line when there is just one. */
  function LinesAsTitles(lines: seq<string>): Table
  {
    TitleTable(if |lines| > 1 then lines[1..] else lines)
  }

  /**
   * The plain-text fallback of `_safe_read_csv`: no lines gives an empty
   * table with the single column `title`; a first line with a comma is
   * re-parsed as CSV; otherwise (or when that parse fails) the first line is
   * taken for a header and the other lines are the titles.
   */
  function PlainTextTable(raw: seq<string>, reparsed: Option<Table>): Table
  {
    var lines := CleanLines(raw);
    if lines == [] then TitleTable([])
    else if ',' in lines[0] && reparsed.Some? then reparsed.value
    else LinesAsTitles(lines)
  }

  /** What the fallback returns in each of its cases. */
  lemma PlainTextCases(raw: seq<string>, reparsed: Option<Table>)
    ensures CleanLines(raw) == [] ==>
      PlainTextTable(raw, reparsed).columns == ["title"] && PlainTextTable(raw, reparsed).rows == []
    ensures CleanLines(raw) != [] && (',' !in CleanLines(raw)[0] || reparsed.None?) ==>
      var lines := CleanLines(raw);
      var t := PlainTextTable(raw, reparsed);
      && t.columns == ["title"]
      && |t.rows| == (if |lines| > 1 then |lines| - 1 else 1)
      && (forall k :: 0 <= k < |t.rows| ==> t.rows[k]["title"] == Str(lines[if |lines| > 1 then k + 1 else k]))
  {
  }

  /** `_safe_read_csv`: the CSV parse when some encoding worked, else the plain-text fallback. */
  function SafeReadCsv(f: CatalogFile): (t: Table)
    requires ValidFile(f)
    ensures WellFormed(t)
  {
    if f.parsed.Some? then f.parsed.value else PlainTextTable(f.lines, f.reparsed)
  }

  /**
   * What `_safe_read_csv` returns: the first encoding's parse unchanged;
   * failing that, an empty `title` table for a file with no text, the
   * re-parse when a first line with a comma parses, and otherwise the lines
   * as titles under a header line.
   */
  lemma SafeReadCsvCases(f: CatalogFile)
    requires ValidFile(f)
    ensures f.parsed.Some? ==> SafeReadCsv(f) == f.parsed.value
    ensures f.parsed.None? && CleanLines(f.lines) == [] ==> SafeReadCsv(f).columns == ["title"] && SafeReadCsv(f).rows == []
    ensures f.parsed.None? && CleanLines(f.lines) != [] && ',' in CleanLines(f.lines)[0] && f.reparsed.Some? ==>
      SafeReadCsv(f) == f.reparsed.value
    ensures f.parsed.None? && CleanLines(f.lines) != [] && (',' !in CleanLines(f.lines)[0] || f.reparsed.None?) ==>
      var lines := CleanLines(f.lines);
      var t := SafeReadCsv(f);
      && t.columns == ["title"]
      && |t.rows| == (if |lines| > 1 then |lines| - 1 else 1)
      && (forall k :: 0 <= k < |t.rows| ==> t.rows[k]["title"] == Str(lines[if |lines| > 1 then k + 1 else k]))
  {
    PlainTextCases(f.lines, f.reparsed);
  }

  /** The first of `cols` that is in `objs`. */
  function FirstIn(cols: seq<string>, objs: set<string>): (r: Option<nat>)
    ensures r.Some? ==> r.value < |cols| && cols[r.value] in objs
    ensures r.Some? ==> forall j :: 0 <= j < r.value ==> cols[j] !in objs
    ensures r.None? ==> forall j :: 0 <= j < |cols| ==> cols[j] !in objs
  {
    if cols == [] then None
    else if cols[0] in objs then Some(0)
    else
      match FirstIn(cols[1..], objs)
      case None => None
      case Some(i) => Some(i + 1)
  }

  lemma FirstInAt(cols: seq<string>, objs: set<string>, i: nat)
    requires i < |cols| && cols[i] in objs
    requires forall j :: 0 <= j < i ==> cols[j] !in objs
    ensures FirstIn(cols, objs) == Some(i)
  {
  }

  lemma FirstInNone(cols: seq<string>, objs: set<string>)
    requires forall j :: 0 <= j < |cols| ==> cols[j] !in objs
    ensures FirstIn(cols, objs) == None
  {
  }

  /** The first column of pandas dtype object, in column order. */
  function FirstObjectColumn(t: Table): Option<nat>
  {
    FirstIn(t.columns, t.objectColumns)
  }

  /** `df.iloc[:, 0].astype(str)`. */
  function FirstColumnAsText(t: Table): (cells: seq<Cell>)
    requires WellFormed(t) && |t.columns| > 0
    ensures |cells| == |t.rows|
  {
    seq(|t.rows|, k requires 0 <= k < |t.rows| => Str(ToStr(t.rows[k][t.columns[0]])))
  }

  /**
   * Title selection in `load_csv`: keep an existing `title` column; else rename
   * the first object column to `title`; else (the loop's `else`) add a
   * `title` column holding the first column as text.
   */
  function WithTitle(t: Table): (r: Result<Table, LoadError>)
    requires WellFormed(t)
    ensures r.Ok? ==> WellFormed(r.value) && "title" in r.value.columns
    ensures r.Err? <==> "title" !in t.columns && t.columns == []
  {
    if "title" in t.columns then Ok(t)
    else match FirstObjectColumn(t)
      case Some(i) =>
        var r := Rename(t, t.columns[i], "title");
        assert r.columns[i] == "title";
        Ok(r)
      case None =>
        if t.columns == [] then Err(NoColumns)
        else Ok(AddColumn(t, "title", FirstColumnAsText(t), true))
  }

  /** Which column becomes the title. */
  lemma WithTitleChoice(t: Table)
    requires WellFormed(t) && "title" !in t.columns
    ensures FirstObjectColumn(t).Some? ==>
      var i := FirstObjectColumn(t).value;
      WithTitle(t).Ok? && WithTitle(t).value.columns[i] == "title" && |WithTitle(t).value.columns| == |t.columns|
      && forall k :: 0 <= k < |t.rows| ==> WithTitle(t).value.rows[k]["title"] == t.rows[k][t.columns[i]]
    ensures FirstObjectColumn(t).None? && t.columns != [] ==>
      WithTitle(t).Ok? && WithTitle(t).value.columns == t.columns + ["title"]
      && forall k :: 0 <= k < |t.rows| ==> WithTitle(t).value.rows[k]["title"] == Str(ToStr(t.rows[k][t.columns[0]]))
  {
  }

  /** `df["title"]` cleaning followed by `df.fillna("")`. */
  function Normalize(t: Table): (r: Result<Table, LoadError>)
    requires WellFormed(t)
  {
    match WithTitle(t)
    case Err(e) => Err(e)
    case Ok(w) => Ok(FillNa(CleanTitles(w)))
  }

  /** What `load_csv(kind)` returns, or the error it raises. */
  function LoadSpec(kind: string, f: CatalogFile): Result<Table, LoadError>
    requires ValidFile(f)
  {
    if !f.present then Err(FileNotFound(CatalogPath(kind))) else Normalize(SafeReadCsv(f))
  }

  /** The guarantees of a loaded catalog. */
  predicate Loaded(t: Table)
  {
    && WellFormed(t)
    && "title" in t.columns
    && (forall k :: 0 <= k < |t.rows| ==> CleanTitle(t.rows[k]))
    && (forall k, c :: 0 <= k < |t.rows| && c in t.rows[k] ==> t.rows[k][c] != Null)
  }

  /** Filling gaps keeps the columns, the cleaned titles, and leaves no missing cell. */
  lemma FillNaSpec(t: Table)
    requires WellFormed(t) && "title" in t.columns
    requires forall k :: 0 <= k < |t.rows| ==> CleanTitle(t.rows[k])
    ensures Loaded(FillNa(t))
    ensures forall k, c :: 0 <= k < |t.rows| && c in t.rows[k] && t.rows[k][c] != Null ==> FillNa(t).rows[k][c] == t.rows[k][c]
  {
  }

  /**
   * A normalised table has a `title` column, every title is a stripped,
   * non-empty string, and no cell is missing. Normalisation fails only on a
   * table with no columns at all.
   */
  lemma NormalizeSpec(t: Table)
    requires WellFormed(t)
    ensures Normalize(t).Ok? ==> Loaded(Normalize(t).value) && |Normalize(t).value.rows| <= |t.rows|
    ensures Normalize(t).Err? <==> "title" !in t.columns && t.columns == []
  {
    NormalizeLoaded(t);
    NormalizeShrinks(t);
  }

  lemma NormalizeLoaded(t: Table)
    requires WellFormed(t)
    ensures Normalize(t).Ok? ==> Loaded(Normalize(t).value)
  {
    if WithTitle(t).Ok? {
      var w := WithTitle(t).value;
      CleanTitlesClean(w);
      FillNaSpec(CleanTitles(w));
    }
  }

  lemma NormalizeShrinks(t: Table)
    requires WellFormed(t)
    ensures Normalize(t).Ok? ==> |Normalize(t).value.rows| <= |t.rows|
  {
    if WithTitle(t).Ok? {
      var w := WithTitle(t).value;
      CleanTitlesRows(w);
      KeepTitledSpec(StripTitleRows(w));
    }
  }

  /** A missing file raises before anything is parsed. */
  lemma MissingFileRaises(kind: string, f: CatalogFile)
    requires ValidFile(f) && !f.present
    ensures LoadSpec(kind, f) == Err(FileNotFound("data/" + kind + ".csv"))
  {
  }

  /** `load_csv(kind)`, step by step as the source rebinds `df`. */
  method LoadCsv(kind: string, f: CatalogFile) returns (r: Result<Table, LoadError>)
    requires ValidFile(f)
    ensures r == LoadSpec(kind, f)
    ensures r.Ok? ==> Loaded(r.value)
  {
    if !f.present {
      return Err(FileNotFound(CatalogPath(kind)));
    }
    var df := SafeReadCsv(f);
    NormalizeSpec(df);
    var titled := EnsureTitleColumn(df);
    if titled.Err? {
      return Err(titled.error);
    }
    var cleaned := CleanTitles(titled.value);
    return Ok(FillNa(cleaned));
  }

  /** The title step of `load_csv` as written: the column scan with its `for ... else`. */
  method EnsureTitleColumn(read: Table) returns (r: Result<Table, LoadError>)
    requires WellFormed(read)
    ensures r == WithTitle(read)
  {
    var df := read;
    if "title" !in df.columns {
      var renamed := false;
      var i := 0;
      while i < |df.columns|
        invariant 0 <= i <= |df.columns|
        invariant df == read && !renamed
        invariant forall j :: 0 <= j < i ==> df.columns[j] !in df.objectColumns
      {
        if df.columns[i] in df.objectColumns {
          FirstInAt(read.columns, read.objectColumns, i);
          df := Rename(df, df.columns[i], "title");
          renamed := true;
          break;
        }
        i := i + 1;
      }
      if !renamed {
        if |df.columns| == 0 {
          return Err(NoColumns);
        }
        FirstInNone(read.columns, read.objectColumns);
        df := AddColumn(df, "title", FirstColumnAsText(df), true);
      }
    }
    return Ok(df);
  }

  /** `preview(kind, n)`: the first n rows of the loaded catalog. */
  method Preview(kind: string, f: CatalogFile, n: int) returns (r: Result<Table, LoadError>)
    requires ValidFile(f)
    ensures LoadSpec(kind, f).Err? ==> r == LoadSpec(kind, f)
    ensures LoadSpec(kind, f).Ok? ==> r == Ok(Head(LoadSpec(kind, f).value, n))
    ensures r.Ok? && n >= 0 ==> r.value.rows == LoadSpec(kind, f).value.rows[..if n < |LoadSpec(kind, f).value.rows| then n else |LoadSpec(kind, f).value.rows|]
  {
    var loaded := LoadCsv(kind, f);
    match loaded {
      case Err(e) =>
        r := Err(e);
      case Ok(t) =>
        r := Ok(Head(t, n));
        if n >= 0 {
          HeadPrefix(t, n);
        }
    }
  }
}
