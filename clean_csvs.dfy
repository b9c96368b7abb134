/**
 * `normalize_df` of the offline cleaning script, which rewrites each catalog
 * file in place. It shares the loader's line cleaning and title cleaning but
 * has its own rule for choosing the title column and fills no gaps.
 */
module CleanCsvs {
  import opened Wrappers
  import opened Text
  import opened Tables
  import DataLoader

  datatype CleanError = NoColumns  // `df.iloc[:, 0]` on a table without columns raises IndexError

  /**
   * `normalize_df` when it is given no table: the script's own plain-text
   * reading, used when every encoding failed.
   */
  function ReadAsLines(raw: seq<string>, reparsed: Option<Table>): Table
  {
    var lines := DataLoader.CleanLines(raw);
    if lines != [] && ',' in lines[0] then
      match reparsed
      case Some(t) => t
      case None => DataLoader.LinesAsTitles(lines)
    else
      DataLoader.LinesAsTitles(lines)
  }

  /** The script's fallback reads a file exactly as the loader's fallback does. */
  lemma ReadAsLinesAgrees(raw: seq<string>, reparsed: Option<Table>)
    ensures ReadAsLines(raw, reparsed) == DataLoader.PlainTextTable(raw, reparsed)
  {
  }

  /** The non-missing cells, in order (`dropna()`). */
  function DropNulls(cells: seq<Cell>): (r: seq<Cell>)
    ensures |r| <= |cells|
    ensures r == [] <==> forall k :: 0 <= k < |cells| ==> cells[k] == Null
  {
    if cells == [] then []
    else (if cells[0] == Null then [] else [cells[0]]) + DropNulls(cells[1..])
  }

  /** `df[col].dropna().astype(str).head(10).tolist()`. */
  function Sample(t: Table, col: string): (sample: seq<string>)
    requires WellFormed(t) && col in t.columns
  {
    var present := DropNulls(Column(t, col));
    PySlice(seq(|present|, k requires 0 <= k < |present| => ToStr(present[k])), 0, 10)
  }

  /**
   * The title test of `normalize_df`'s column scan. Every sampled value has already been turned into a
   * string, so `all(isinstance(x, str) ...)` always holds and only the
   * sample's length decides.
   */
  predicate LooksLikeTitles(t: Table, col: string)
    requires WellFormed(t) && col in t.columns
  {
    |Sample(t, col)| > 0
  }

  /** A column passes the test exactly when it has at least one non-missing value. */
  lemma LooksLikeTitlesIff(t: Table, col: string)
    requires WellFormed(t) && col in t.columns
    ensures LooksLikeTitles(t, col) <==> exists k :: 0 <= k < |t.rows| && t.rows[k][col] != Null
  {
    var cells := Column(t, col);
    if exists k :: 0 <= k < |t.rows| && t.rows[k][col] != Null {
      var k :| 0 <= k < |t.rows| && t.rows[k][col] != Null;
      assert cells[k] != Null;
    }
  }

  /** The first column, from position `from` on, that passes the test. */
  function FirstTitleLike(t: Table, from: nat): (r: Option<nat>)
    requires WellFormed(t) && from <= |t.columns|
    ensures r.Some? ==> from <= r.value < |t.columns| && LooksLikeTitles(t, t.columns[r.value])
    ensures r.Some? ==> forall j :: from <= j < r.value ==> !LooksLikeTitles(t, t.columns[j])
    ensures r.None? ==> forall j :: from <= j < |t.columns| ==> !LooksLikeTitles(t, t.columns[j])
  {
    FirstSet(TitleLikeFlags(t), from)
  }

  /** Which columns pass the test, in column order. */
  function TitleLikeFlags(t: Table): (flags: seq<bool>)
    requires WellFormed(t)
    ensures |flags| == |t.columns|
    ensures forall j :: 0 <= j < |t.columns| ==> flags[j] == LooksLikeTitles(t, t.columns[j])
  {
    seq(|t.columns|, j requires 0 <= j < |t.columns| => LooksLikeTitles(t, t.columns[j]))
  }

  /** The first set flag at or after `from`. */
  function FirstSet(flags: seq<bool>, from: nat): (r: Option<nat>)
    requires from <= |flags|
    ensures r.Some? ==> from <= r.value < |flags| && flags[r.value]
    ensures r.Some? ==> forall j :: from <= j < r.value ==> !flags[j]
    ensures r.None? ==> forall j :: from <= j < |flags| ==> !flags[j]
    decreases |flags| - from
  {
    if from == |flags| then None
    else if flags[from] then Some(from)
    else FirstSet(flags, from + 1)
  }

  /**
   * Title detection in `normalize_df`: keep an existing `title` column; else rename the first
   * column with a value to `title`; else rename a lone column to `title`;
   * else add `title` as the first column's text.
   */
  function DetectTitle(t: Table): (r: Result<Table, CleanError>)
    requires WellFormed(t)
    ensures r.Ok? ==> WellFormed(r.value) && "title" in r.value.columns
    ensures r.Err? <==> "title" !in t.columns && t.columns == []
  {
    if "title" in t.columns then Ok(t)
    else match FirstTitleLike(t, 0)
      case Some(i) =>
        var r := Rename(t, t.columns[i], "title");
        assert r.columns[i] == "title";
        Ok(r)
      case None =>
        if |t.columns| == 1 then
          var r := Rename(t, t.columns[0], "title");
          assert r.columns[0] == "title";
          Ok(r)
        else if t.columns == [] then Err(NoColumns)
        else Ok(AddColumn(t, "title", DataLoader.FirstColumnAsText(t), true))
  }

  /** Which column becomes the title when the table has none. */
  lemma DetectTitleChoice(t: Table)
    requires WellFormed(t) && "title" !in t.columns
    ensures FirstTitleLike(t, 0).Some? ==>
      var i := FirstTitleLike(t, 0).value;
      DetectTitle(t).Ok? && DetectTitle(t).value.columns[i] == "title" && |DetectTitle(t).value.columns| == |t.columns|
      && forall k :: 0 <= k < |t.rows| ==> DetectTitle(t).value.rows[k]["title"] == t.rows[k][t.columns[i]]
    ensures FirstTitleLike(t, 0).None? && |t.columns| == 1 ==>
      DetectTitle(t).Ok? && DetectTitle(t).value.columns == ["title"]
      && forall k :: 0 <= k < |t.rows| ==> DetectTitle(t).value.rows[k]["title"] == t.rows[k][t.columns[0]]
    ensures FirstTitleLike(t, 0).None? && |t.columns| > 1 ==>
      DetectTitle(t).Ok? && DetectTitle(t).value.columns == t.columns + ["title"]
      && forall k :: 0 <= k < |t.rows| ==> DetectTitle(t).value.rows[k]["title"] == Str(ToStr(t.rows[k][t.columns[0]]))
  {
  }

  /** The table the script works on: the parsed one, or the plain-text reading. */
  function Input(df: Option<Table>, raw: seq<string>, reparsed: Option<Table>): Table
  {
    if df.None? then ReadAsLines(raw, reparsed) else df.value
  }

  predicate ValidInput(df: Option<Table>, reparsed: Option<Table>)
  {
    (df.Some? ==> WellFormed(df.value)) && (reparsed.Some? ==> WellFormed(reparsed.value))
  }

  /** The script starts from the table the loader's `_safe_read_csv` gives for the same file. */
  lemma InputAgrees(df: Option<Table>, raw: seq<string>, reparsed: Option<Table>)
    requires ValidInput(df, reparsed)
    ensures Input(df, raw, reparsed) == DataLoader.SafeReadCsv(DataLoader.CatalogFile(true, df, raw, reparsed))
  {
    ReadAsLinesAgrees(raw, reparsed);
  }

  /** What `normalize_df(df, path)` returns, or the error it raises. */
  function NormalizeDfSpec(df: Option<Table>, raw: seq<string>, reparsed: Option<Table>): Result<Table, CleanError>
    requires ValidInput(df, reparsed)
  {
    match DetectTitle(Input(df, raw, reparsed))
    case Err(e) => Err(e)
    case Ok(w) => Ok(CleanTitles(w))
  }

  /** The script's output: a `title` column of stripped, non-empty strings. */
  predicate Normalized(t: Table)
  {
    && WellFormed(t)
    && "title" in t.columns && "title" in t.objectColumns
    && forall k :: 0 <= k < |t.rows| ==> CleanTitle(t.rows[k])
  }

  /** Every successful run yields a normalised table; only a table with no columns fails. */
  lemma NormalizeDfSound(df: Option<Table>, raw: seq<string>, reparsed: Option<Table>)
    requires ValidInput(df, reparsed)
    ensures NormalizeDfSpec(df, raw, reparsed).Ok? ==> Normalized(NormalizeDfSpec(df, raw, reparsed).value)
    ensures NormalizeDfSpec(df, raw, reparsed).Err? <==>
      "title" !in Input(df, raw, reparsed).columns && Input(df, raw, reparsed).columns == []
  {
    var t := Input(df, raw, reparsed);
    if DetectTitle(t).Ok? {
      CleanTitlesClean(DetectTitle(t).value);
    }
  }

  /** A table that is already normalised comes out unchanged. */
  lemma NormalizeDfFixpoint(t: Table, raw: seq<string>, reparsed: Option<Table>)
    requires Normalized(t) && ValidInput(Some(t), reparsed)
    ensures NormalizeDfSpec(Some(t), raw, reparsed) == Ok(t)
  {
    CleanTitlesIdempotent(t);
  }

  /** Cleaning the cleaned table again changes nothing. */
  lemma NormalizeDfIdempotent(df: Option<Table>, raw: seq<string>, raw2: seq<string>, reparsed: Option<Table>)
    requires ValidInput(df, reparsed) && NormalizeDfSpec(df, raw, reparsed).Ok?
    ensures var once := NormalizeDfSpec(df, raw, reparsed).value;
      NormalizeDfSpec(Some(once), raw2, None) == Ok(once)
  {
    NormalizeDfSound(df, raw, reparsed);
    NormalizeDfFixpoint(NormalizeDfSpec(df, raw, reparsed).value, raw2, None);
  }

  /** Title detection as `normalize_df` runs it: a column scan with `for ... break ... else`. */
  method ChooseTitle(df: Table) returns (r: Result<Table, CleanError>)
    requires WellFormed(df)
    ensures r == DetectTitle(df)
  {
    var t := df;
    if "title" in t.columns {
      return Ok(t);
    }
    var i := 0;
    while i < |t.columns|
      invariant 0 <= i <= |t.columns|
      invariant forall j :: 0 <= j < i ==> !LooksLikeTitles(t, t.columns[j])
    {
      var sample := Sample(t, t.columns[i]);
      if |sample| > 0 {
        assert FirstTitleLike(t, 0) == Some(i);
        return Ok(Rename(t, t.columns[i], "title"));
      }
      i := i + 1;
    }
    if |t.columns| == 1 {
      return Ok(Rename(t, t.columns[0], "title"));
    }
    if |t.columns| == 0 {
      return Err(NoColumns);
    }
    return Ok(AddColumn(t, "title", DataLoader.FirstColumnAsText(t), true));
  }

  /** `normalize_df`, step by step as the source rebinds the frame. */
  method NormalizeDf(df: Option<Table>, raw: seq<string>, reparsed: Option<Table>) returns (r: Result<Table, CleanError>)
    requires ValidInput(df, reparsed)
    ensures r == NormalizeDfSpec(df, raw, reparsed)
    ensures r.Ok? ==> Normalized(r.value)
  {
    var t := Input(df, raw, reparsed);
    var titled := ChooseTitle(t);
    NormalizeDfSound(df, raw, reparsed);
    match titled {
      case Err(e) =>
        r := Err(e);
      case Ok(w) =>
        // The script's "ensure title column exists" step re-checks for a `title`
        // column; DetectTitle's contract shows one always exists here.
        r := Ok(CleanTitles(w));
    }
  }
}
