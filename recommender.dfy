/**
 * `ContentRecommender`: a loaded catalog, one embedding vector per row (read
 * back from the embedding cache or computed and cached), and three queries —
 * items similar to a title, items similar to an item, and the most popular
 * items.
 *
 * The sentence-embedding model is a parameter (`Encoder`): any function that
 * gives one vector per text. Cosine similarity is a parameter too
 * (`Similarity`), with integer scores standing in for floats.
 */
module Recommender {
  import opened Wrappers
  import opened Text
  import opened Tables
  import opened Ordering
  import opened Ranking
  import DataLoader

  type Vector = seq<int>

  /** `model.encode(texts)`: one vector per text, in order. */
  type Encoder = f: seq<string> -> seq<Vector> | forall texts :: |f(texts)| == |texts|
    witness (texts: seq<string>) => seq(|texts|, _ => [])

  /** `cosine_similarity(q, e)` for one pair of vectors. */
  type Similarity = (Vector, Vector) -> int

  /** A cache file: missing, present but unreadable (or without `orig_index`), or holding a value. */
  datatype Artifact<T> = Absent | Unreadable | Stored(value: T)

  /** Why a query raises. */
  datatype QueryError =
    | NotReady          // no embedding matrix yet (indexing None)
    | EmptyMatrix       // cosine similarity against an empty matrix
    | IndexOutOfRange   // an embedding row or a catalog row past the end
    | UnorderableKeys   // sorting a column that mixes strings and numbers

  /** Why constructing a recommender raises. */
  datatype InitError =
    | CatalogUnavailable(cause: DataLoader.LoadError)
    | TextNotCombinable // a description or genre that is a number does not concatenate with " . "

  /** The two cache files of one catalog kind: `<kind>_emb.npy` and `<kind>_idx.csv`. */
  class EmbeddingStore {
    var matrixFile: Artifact<seq<Vector>>
    var indexFile: Artifact<seq<int>>

    constructor(matrixFile: Artifact<seq<Vector>>, indexFile: Artifact<seq<int>>)
      ensures this.matrixFile == matrixFile && this.indexFile == indexFile
    {
      this.matrixFile := matrixFile;
      this.indexFile := indexFile;
    }

    /** `np.save` of the matrix, then the `orig_index` column written as CSV. */
    method Save(matrix: seq<Vector>, index: seq<int>)
      modifies this
      ensures matrixFile == Stored(matrix) && indexFile == Stored(index)
    {
      matrixFile := Stored(matrix);
      indexFile := Stored(index);
    }
  }

  // ---------------------------------------------------------------------
  // The combined text of every row
  // ---------------------------------------------------------------------

  /** A column of empty strings, one per row. */
  function BlankColumn(t: Table): (cells: seq<Cell>)
    ensures |cells| == |t.rows| && forall k :: 0 <= k < |cells| ==> cells[k] == Str("")
  {
    seq(|t.rows|, _ => Str(""))
  }

  /** `df['description'] = ""` and `df['genres'] = ""` for whichever is missing. */
  function WithTextColumns(t: Table): (r: Table)
    requires WellFormed(t)
    ensures WellFormed(r) && |r.rows| == |t.rows|
    ensures "description" in r.columns && "genres" in r.columns
    ensures r.columns == t.columns + (if "description" in t.columns then [] else ["description"])
                                   + (if "genres" in t.columns then [] else ["genres"])
    ensures forall k, c :: 0 <= k < |t.rows| && c in t.rows[k] ==> c in r.rows[k] && r.rows[k][c] == t.rows[k][c]
    ensures forall k :: 0 <= k < |t.rows| && "description" !in t.rows[k] ==> r.rows[k]["description"] == Str("")
    ensures forall k :: 0 <= k < |t.rows| && "genres" !in t.rows[k] ==> r.rows[k]["genres"] == Str("")
    ensures forall c :: c in t.columns ==> (c in r.objectColumns <==> c in t.objectColumns)
    ensures "description" !in t.columns ==> "description" in r.objectColumns
    ensures "genres" !in t.columns ==> "genres" in r.objectColumns
  {
    var d := if "description" in t.columns then t else AddColumn(t, "description", BlankColumn(t), true);
    if "genres" in d.columns then d else AddColumn(d, "genres", BlankColumn(d), true)
  }

  /** `df[c].fillna("")` for one row; None when the cell is a number. */
  function FieldText(r: Row, c: string): Option<string>
  {
    if c in r then CellText(r[c]) else Some("")
  }

  /** `title + " . " + description + " . " + genres` for one row. */
  function CombinedText(r: Row): Option<string>
  {
    match (FieldText(r, "title"), FieldText(r, "description"), FieldText(r, "genres"))
    case (Some(a), Some(b), Some(g)) => Some(a + " . " + b + " . " + g)
    case _ => None
  }

  /** `texts.tolist()`: one combined text per row, or None when the concatenation raises. */
  function CombinedTexts(t: Table): (texts: Option<seq<string>>)
  {
    if forall k :: 0 <= k < |t.rows| ==> CombinedText(t.rows[k]).Some? then
      Some(seq(|t.rows|, k requires 0 <= k < |t.rows| => CombinedText(t.rows[k]).value))
    else
      None
  }

  /**
   * The text list has one entry per row, each the row's title, description
   * and genres joined by " . ", a missing text field reading as "" and a
   * missing cell as "". It fails exactly when some field holds a number.
   */
  lemma CombinedTextsSpec(t: Table)
    requires DataLoader.Loaded(t)
    ensures CombinedTexts(t).None? <==>
      exists k, c :: 0 <= k < |t.rows| && c in t.rows[k] && c in {"description", "genres"} && t.rows[k][c].Num?
    ensures CombinedTexts(t).Some? ==> |CombinedTexts(t).value| == |t.rows|
    ensures CombinedTexts(t).Some? ==> forall k :: 0 <= k < |t.rows| ==>
      CombinedTexts(t).value[k] == t.rows[k]["title"].s + " . " + FieldText(t.rows[k], "description").value + " . " + FieldText(t.rows[k], "genres").value
  {
    if CombinedTexts(t).None? {
      var k :| 0 <= k < |t.rows| && CombinedText(t.rows[k]).None?;
      assert t.rows[k]["title"].Str?;
      if FieldText(t.rows[k], "description").None? {
        assert "description" in t.rows[k] && "description" in {"description", "genres"} && t.rows[k]["description"].Num?;
      } else {
        assert "genres" in t.rows[k] && "genres" in {"description", "genres"} && t.rows[k]["genres"].Num?;
      }
    } else {
      forall k, c | 0 <= k < |t.rows| && c in t.rows[k] && c in {"description", "genres"}
        ensures !t.rows[k][c].Num?
      {
        assert CombinedText(t.rows[k]).Some?;
      }
    }
  }

  /** Adding the blank text columns does not change any row's combined text. */
  lemma WithTextColumnsTexts(t: Table)
    requires WellFormed(t)
    ensures CombinedTexts(WithTextColumns(t)) == CombinedTexts(t)
  {
    var w := WithTextColumns(t);
    forall k | 0 <= k < |t.rows|
      ensures CombinedText(w.rows[k]) == CombinedText(t.rows[k])
    {
      assert FieldText(w.rows[k], "title") == FieldText(t.rows[k], "title");
      assert FieldText(w.rows[k], "description") == FieldText(t.rows[k], "description");
      assert FieldText(w.rows[k], "genres") == FieldText(t.rows[k], "genres");
    }
    if CombinedTexts(t).Some? {
      SameElements(CombinedTexts(w).value, CombinedTexts(t).value);
    }
  }

  /** Two sequences of the same length that agree at every index are equal. */
  lemma SameElements<T>(a: seq<T>, b: seq<T>)
    requires |a| == |b| && forall k :: 0 <= k < |a| ==> a[k] == b[k]
    ensures a == b
  {
  }

  // ---------------------------------------------------------------------
  // Reading back or rebuilding the embedding matrix
  // ---------------------------------------------------------------------

  /** The catalog and its embedding matrix, as a recommender holds them after construction. */
  datatype Snapshot = Snapshot(df: Table, embeddings: seq<Vector>)

  /** `_compute_and_store_embeddings`: the prepared catalog and one vector per row, or None when the texts do not concatenate. */
  function BuildSpec(t: Table, model: Encoder): Option<Snapshot>
    requires WellFormed(t)
  {
    var p := WithTextColumns(t);
    match CombinedTexts(p)
    case None => None
    case Some(texts) => Some(Snapshot(p, model(texts)))
  }

  /** The cached branch of `_ensure_embeddings`: both files readable and every stored label a row of the catalog. */
  function CacheLoadSpec(t: Table, m: Artifact<seq<Vector>>, i: Artifact<seq<int>>): Option<Snapshot>
  {
    if m.Stored? && i.Stored? then
      match Select(t, i.value)
      case Some(s) => Some(Snapshot(s, m.value))
      case None => None
    else
      None
  }

  /** `_ensure_embeddings`: the cache when it loads, otherwise a rebuild. */
  function ResolveSpec(t: Table, m: Artifact<seq<Vector>>, i: Artifact<seq<int>>, model: Encoder): Option<Snapshot>
    requires WellFormed(t)
  {
    var cached := CacheLoadSpec(t, m, i);
    if cached.Some? then cached else BuildSpec(t, model)
  }

  /** A rebuild gives one vector per row of the prepared catalog, which keeps every row and every cell. */
  lemma BuildAligned(t: Table, model: Encoder)
    requires WellFormed(t)
    ensures BuildSpec(t, model).Some? <==> CombinedTexts(t).Some?
    ensures BuildSpec(t, model).Some? ==>
      var s := BuildSpec(t, model).value;
      && s.df == WithTextColumns(t)
      && |s.embeddings| == |s.df.rows| == |t.rows|
      && s.embeddings == model(CombinedTexts(t).value)
  {
    WithTextColumnsTexts(t);
  }

  /** A loaded cache reorders the catalog by the stored labels; the matrix is taken as stored, whatever its length. */
  lemma LoadSelects(t: Table, m: Artifact<seq<Vector>>, i: Artifact<seq<int>>)
    ensures CacheLoadSpec(t, m, i).Some? <==>
      m.Stored? && i.Stored? && forall k :: 0 <= k < |i.value| ==> 0 <= i.value[k] < |t.rows|
    ensures CacheLoadSpec(t, m, i).Some? ==>
      var s := CacheLoadSpec(t, m, i).value;
      && s.embeddings == m.value
      && s.df.columns == t.columns
      && |s.df.rows| == |i.value|
      && forall k :: 0 <= k < |i.value| ==> s.df.rows[k] == t.rows[i.value[k]]
  {
  }

  /** A cache that is missing, unreadable, or names a row the catalog lacks is rebuilt. */
  lemma StaleCacheRebuilds(t: Table, m: Artifact<seq<Vector>>, i: Artifact<seq<int>>, model: Encoder)
    requires WellFormed(t)
    requires !m.Stored? || !i.Stored? || exists k :: 0 <= k < |i.value| && !(0 <= i.value[k] < |t.rows|)
    ensures ResolveSpec(t, m, i, model) == BuildSpec(t, model)
  {
  }

  /**
   * What a rebuild writes, the next construction reads back: the same matrix
   * and the catalog rows in the same order. The text columns added by the
   * rebuild are not stored, so the catalog read back has the loaded columns.
   */
  lemma CacheRoundTrip(t: Table, model: Encoder)
    requires WellFormed(t)
    requires BuildSpec(t, model).Some?
    ensures var s := BuildSpec(t, model).value;
      ResolveSpec(t, Stored(s.embeddings), Stored(Range(|s.df.rows|)), model) == Some(Snapshot(t, s.embeddings))
  {
    var s := BuildSpec(t, model).value;
    SelectRange(t);
  }

  /**
   * Whatever the first construction did — read the cache or rebuild it — a
   * second construction over the same catalog reads the cache back: the same
   * matrix, and the rows of the first one (a rebuild leaves the loaded
   * catalog's own columns, without the added text columns).
   */
  lemma SecondConstructionLoads(t: Table, m: Artifact<seq<Vector>>, i: Artifact<seq<int>>, model: Encoder)
    requires WellFormed(t)
    requires ResolveSpec(t, m, i, model).Some?
    ensures var s := ResolveSpec(t, m, i, model).value;
      var cached := CacheLoadSpec(t, m, i).Some?;
      var m2 := if cached then m else Stored(s.embeddings);
      var i2 := if cached then i else Stored(Range(|s.df.rows|));
      && CacheLoadSpec(t, m2, i2).Some?
      && CacheLoadSpec(t, m2, i2).value.embeddings == s.embeddings
      && CacheLoadSpec(t, m2, i2).value.df == (if cached then s.df else t)
      && (!cached ==> s.df == WithTextColumns(t))
  {
    if CacheLoadSpec(t, m, i).None? {
      CacheRoundTrip(t, model);
    }
  }

  // ---------------------------------------------------------------------
  // Matching a title and ranking rows
  // ---------------------------------------------------------------------

  /** `df['title'].str.lower().str.contains(needle, na=False)` for one row. */
  predicate TitleMatches(r: Row, needle: string)
  {
    "title" in r && r["title"].Str? && Contains(Lower(r["title"].s), needle)
  }

  /** `match.index[0]`: the first row whose title matches. */
  function FirstMatch(rows: seq<Row>, needle: string): (r: Option<nat>)
    ensures r.Some? ==> r.value < |rows| && TitleMatches(rows[r.value], needle)
    ensures r.Some? ==> forall j :: 0 <= j < r.value ==> !TitleMatches(rows[j], needle)
    ensures r.None? <==> forall j :: 0 <= j < |rows| ==> !TitleMatches(rows[j], needle)
  {
    if rows == [] then None
    else if TitleMatches(rows[0], needle) then Some(0)
    else match FirstMatch(rows[1..], needle)
      case None => None
      case Some(i) => Some(i + 1)
  }

  /** An empty query is contained in every title, so it picks the first row. */
  lemma EmptyQueryPicksFirst(rows: seq<Row>)
    requires rows != [] && "title" in rows[0] && rows[0]["title"].Str?
    ensures FirstMatch(rows, Lower("")) == Some(0)
  {
    ContainsEmpty(Lower(rows[0]["title"].s));
  }

  /** Of three titles two of which contain "inception", the query "Inception" picks the first. */
  lemma FirstOfSeveralMatches()
    ensures FirstMatch([map["title" := Str("Inception")], map["title" := Str("Interstellar")],
                        map["title" := Str("Inception 2")]], Lower("Inception")) == Some(0)
  {
    assert StartsWith(Lower("Inception"), Lower("Inception"));
  }

  /** `cosine_similarity([q], embeddings)[0]`. */
  function Scores(emb: seq<Vector>, q: Vector, sim: Similarity): (scores: seq<int>)
    ensures |scores| == |emb|
  {
    seq(|emb|, j requires 0 <= j < |emb| => sim(q, emb[j]))
  }

  /** The ranking tail shared by both similarity queries. */
  function RankRows(df: Table, emb: seq<Vector>, q: Vector, topK: int, sim: Similarity): (r: Result<Table, QueryError>)
    ensures r == Err(EmptyMatrix) <==> emb == []
    ensures emb != [] && |emb| <= |df.rows| ==> r.Ok?
    ensures emb != [] ==> (r.Ok? <==> InRange(TopPositions(Scores(emb, q, sim), topK), |df.rows|))
    ensures emb != [] && r.Err? ==> r.error == IndexOutOfRange
    ensures r.Ok? ==>
      var scores := Scores(emb, q, sim);
      var pos := TopPositions(scores, topK);
      RankedPositions(scores, topK, pos) && ScoredRows(df, pos, scores, r.value)
  {
    if emb == [] then Err(EmptyMatrix)
    else
      var scores := Scores(emb, q, sim);
      var pos := TopPositions(scores, topK);
      TopPositionsSpec(scores, topK);
      WithScoresSpec(df, pos, scores);
      match WithScores(df, pos, scores)
      case None => Err(IndexOutOfRange)
      case Some(out) => Ok(out)
  }

  /**
   * What a similarity query returns: a well-formed table whose last column is
   * the new `score` (or whose existing `score` column is overwritten), with
   * scores non-increasing down the rows.
   */
  lemma RankRowsTable(df: Table, emb: seq<Vector>, q: Vector, topK: int, sim: Similarity)
    requires WellFormed(df)
    ensures RankRows(df, emb, q, topK, sim).Ok? ==>
      var out := RankRows(df, emb, q, topK, sim).value;
      && WellFormed(out)
      && ("score" !in df.columns ==> out.columns == df.columns + ["score"])
      && ("score" in df.columns ==> out.columns == df.columns)
      && (forall k :: 0 <= k < |out.rows| ==> "score" in out.rows[k] && out.rows[k]["score"].Num?)
      && (forall i, j :: 0 <= i < j < |out.rows| ==> out.rows[i]["score"].n >= out.rows[j]["score"].n)
  {
    if RankRows(df, emb, q, topK, sim).Ok? {
      var scores := Scores(emb, q, sim);
      var pos := TopPositions(scores, topK);
      TopPositionsSpec(scores, topK);
      WithScoresSpec(df, pos, scores);
      WithScoresTable(df, pos, scores);
      ScoredRowsDescend(df, pos, scores, RankRows(df, emb, q, topK, sim).value);
    }
  }

  /** Which column `get_popular` sorts by: `rating` first, then `popularity`. */
  function PopularKey(columns: seq<string>): (c: Option<string>)
    ensures c.Some? <==> "rating" in columns || "popularity" in columns
    ensures c.Some? ==> c.value in columns
    ensures "rating" in columns ==> c == Some("rating")
    ensures "rating" !in columns && "popularity" in columns ==> c == Some("popularity")
  {
    if "rating" in columns then Some("rating")
    else if "popularity" in columns then Some("popularity")
    else None
  }

  /**
   * A numeric column with a gap cannot be sorted once loaded: `fillna("")`
   * puts an empty string beside the numbers.
   */
  lemma GapMakesKeysUnorderable(t: Table, c: string, i: nat, j: nat)
    requires WellFormed(t) && c in t.columns
    requires i < |t.rows| && j < |t.rows| && t.rows[i][c].Num? && t.rows[j][c] == Null
    ensures !Comparable(Column(FillNa(t), c))
  {
    var keys := Column(FillNa(t), c);
    assert keys[i].Num? && keys[j].Str?;
  }

  /** `df.sort_values(c, ascending=False)`: rows in descending key order, missing keys last. */
  function SortRowsBy(df: Table, keys: seq<Cell>): (r: Table)
    requires |keys| == |df.rows|
    ensures r.columns == df.columns && r.objectColumns == df.objectColumns
  {
    var order := ArgSortDesc(keys);
    df.(rows := seq(|order|, k requires 0 <= k < |order| => df.rows[order[k]]))
  }

  /** Sorting and then taking the head is taking the rows at the first positions of the descending order. */
  lemma SortThenHead(df: Table, keys: seq<Cell>, n: int)
    requires |keys| == |df.rows|
    ensures var pos := PySlice(ArgSortDesc(keys), 0, n);
      var out := Head(SortRowsBy(df, keys), n);
      && |out.rows| == |pos|
      && forall k :: 0 <= k < |pos| ==> pos[k] < |df.rows| && out.rows[k] == df.rows[pos[k]]
  {
    var order := ArgSortDesc(keys);
    var sorted := SortRowsBy(df, keys).rows;
    var pos := PySlice(order, 0, n);
    var b := SliceBound(n, |order|);
    assert |sorted| == |order|;
    assert pos == order[..b];
    assert Head(SortRowsBy(df, keys), n).rows == sorted[..b];
  }

  /** The positions of the rows `get_popular` returns when it sorts by `c`. */
  function PopularPositions(df: Table, c: string, topK: int): seq<nat>
    requires WellFormed(df) && c in df.columns
  {
    PySlice(ArgSortDesc(Column(df, c)), 0, topK)
  }

  // ---------------------------------------------------------------------
  // The recommender object
  // ---------------------------------------------------------------------

  class ContentRecommender {
    const kind: string
    const model: Encoder
    const store: EmbeddingStore
    var df: Table
    var embeddings: Option<seq<Vector>>
    /** Every text list this recommender has passed to `model.encode` while preparing its matrix, in call order. */
    ghost var encoded: seq<seq<string>>

    ghost predicate Valid()
      reads this
    {
      WellFormed(df) && "title" in df.columns
    }

    /** One embedding row per catalog row (what a rebuild guarantees; a cache is not checked). */
    predicate Aligned()
      reads this
    {
      embeddings.Some? && |embeddings.value| == |df.rows|
    }

    /** `__init__` up to `self.embeddings = None`, on the catalog `load_csv(kind)` returned. */
    constructor(kind: string, df: Table, model: Encoder, store: EmbeddingStore)
      requires DataLoader.Loaded(df)
      ensures Valid()
      ensures this.kind == kind && this.df == df && this.model == model && this.store == store
      ensures embeddings == None && encoded == []
    {
      this.kind := kind;
      this.model := model;
      this.store := store;
      this.df := df;
      this.embeddings := None;
      this.encoded := [];
    }

    /**
     * `_compute_and_store_embeddings`: add the missing text columns, encode
     * one combined text per row, save the matrix and the row labels. Returns
     * false where the concatenation raises; the text columns are then added
     * but nothing is encoded or saved.
     */
    method ComputeAndStoreEmbeddings() returns (ok: bool)
      requires Valid()
      modifies this, store
      ensures Valid()
      ensures df == WithTextColumns(old(df))
      ensures ok == CombinedTexts(old(df)).Some? == BuildSpec(old(df), model).Some?
      ensures ok ==> Aligned() && BuildSpec(old(df), model) == Some(Snapshot(df, embeddings.value))
      ensures ok ==> encoded == old(encoded) + [CombinedTexts(df).value]
      ensures ok ==> store.matrixFile == Stored(embeddings.value) && store.indexFile == Stored(Range(|df.rows|))
      ensures !ok ==> embeddings == old(embeddings) && encoded == old(encoded) && unchanged(store)
    {
      ghost var before := df;
      if "description" !in df.columns {
        df := AddColumn(df, "description", BlankColumn(df), true);
      }
      if "genres" !in df.columns {
        df := AddColumn(df, "genres", BlankColumn(df), true);
      }
      assert df == WithTextColumns(before);
      WithTextColumnsTexts(before);
      BuildAligned(before, model);
      var texts := CombinedTexts(df);
      if texts.None? {
        return false;
      }
      var vectors := model(texts.value);
      embeddings := Some(vectors);
      encoded := encoded + [texts.value];
      store.Save(vectors, Range(|df.rows|));
      return true;
    }

    /**
     * The `try` block of `_ensure_embeddings`, entered when both cache files
     * exist: load the matrix (kept even if reading the index then fails) and
     * reorder the catalog by the stored labels. Returns whether it got
     * through without raising.
     */
    method LoadCache() returns (loaded: bool)
      requires Valid()
      modifies this
      ensures Valid() && encoded == old(encoded)
      ensures loaded == CacheLoadSpec(old(df), store.matrixFile, store.indexFile).Some?
      ensures loaded ==> df == CacheLoadSpec(old(df), store.matrixFile, store.indexFile).value.df
      ensures loaded ==> embeddings == Some(store.matrixFile.value)
      ensures !loaded ==> df == old(df)
      ensures !loaded ==> embeddings == if store.matrixFile.Stored? then Some(store.matrixFile.value) else old(embeddings)
    {
      var m := store.matrixFile;
      if m.Stored? {
        embeddings := Some(m.value);
        var i := store.indexFile;
        if i.Stored? {
          var selected := Select(df, i.value);
          if selected.Some? {
            df := selected.value;
            return true;
          }
        }
      }
      return false;
    }

    /** `_ensure_embeddings`: the cache when both files exist and it loads; on any failure, a rebuild. */
    method EnsureEmbeddings() returns (ok: bool)
      requires Valid()
      modifies this, store
      ensures Valid()
      ensures var s := ResolveSpec(old(df), old(store.matrixFile), old(store.indexFile), model);
        ok == s.Some? && (ok ==> df == s.value.df && embeddings == Some(s.value.embeddings))
      ensures CacheLoadSpec(old(df), old(store.matrixFile), old(store.indexFile)).Some? ==>
        encoded == old(encoded) && unchanged(store)
      ensures CacheLoadSpec(old(df), old(store.matrixFile), old(store.indexFile)).None? && ok ==>
        (&& Aligned() && encoded == old(encoded) + [CombinedTexts(df).value]
         && store.matrixFile == Stored(embeddings.value) && store.indexFile == Stored(Range(|df.rows|)))
      ensures !ok ==>
        (&& df == WithTextColumns(old(df)) && encoded == old(encoded) && unchanged(store)
         && embeddings == if old(store.matrixFile).Stored? && !old(store.indexFile).Absent? then Some(old(store.matrixFile).value) else old(embeddings))
    {
      ghost var t0 := df;
      var m0, i0 := store.matrixFile, store.indexFile;
      if !m0.Absent? && !i0.Absent? {
        var loaded := LoadCache();
        if loaded {
          return true;
        }
      }
      assert CacheLoadSpec(t0, m0, i0).None? && df == t0;
      assert ResolveSpec(t0, m0, i0, model) == BuildSpec(t0, model);
      ok := ComputeAndStoreEmbeddings();
    }

    /**
     * `recommend_by_title`: the query vector is the embedding of the first
     * row whose lowercased title contains the lowercased query, or the
     * encoding of the query when no title does.
     */
    function TitleQuery(title: string): (r: Result<Vector, QueryError>)
      reads this
      requires embeddings.Some?
      ensures FirstMatch(df.rows, Lower(title)).None? ==> r == Ok(model([title])[0])
      ensures FirstMatch(df.rows, Lower(title)).Some? ==>
        (r.Ok? <==> FirstMatch(df.rows, Lower(title)).value < |embeddings.value|)
      ensures r.Ok? && FirstMatch(df.rows, Lower(title)).Some? ==>
        r.value == embeddings.value[FirstMatch(df.rows, Lower(title)).value]
      ensures r.Err? ==> r.error == IndexOutOfRange
    {
      match FirstMatch(df.rows, Lower(title))
      case None => Ok(model([title])[0])
      case Some(i) => if i < |embeddings.value| then Ok(embeddings.value[i]) else Err(IndexOutOfRange)
    }

    function RecommendByTitle(title: string, topK: int, sim: Similarity): (r: Result<Table, QueryError>)
      reads this
      ensures embeddings.None? ==> r == Err(NotReady)
      ensures Aligned() && df.rows != [] ==> r.Ok?
      ensures Aligned() && df.rows == [] ==> r == Err(EmptyMatrix)
      ensures embeddings.Some? && TitleQuery(title).Err? ==> r == Err(IndexOutOfRange)
      ensures embeddings.Some? && embeddings.value == [] && TitleQuery(title).Ok? ==> r == Err(EmptyMatrix)
      ensures embeddings.Some? && embeddings.value != [] && TitleQuery(title).Ok? ==>
        (r.Ok? <==> InRange(TopPositions(Scores(embeddings.value, TitleQuery(title).value, sim), topK), |df.rows|))
      ensures embeddings.Some? && embeddings.value != [] && r.Err? ==> r.error == IndexOutOfRange
      ensures r.Ok? ==>
        (&& embeddings.Some? && TitleQuery(title).Ok?
         && var scores := Scores(embeddings.value, TitleQuery(title).value, sim);
            var pos := TopPositions(scores, topK);
            RankedPositions(scores, topK, pos) && ScoredRows(df, pos, scores, r.value))
    {
      if embeddings.None? then Err(NotReady)
      else match TitleQuery(title)
        case Err(e) => Err(e)
        case Ok(q) => RankRows(df, embeddings.value, q, topK, sim)
    }

    /** `recommend_for_item`: the query is the item's own embedding row, indexed the numpy way. */
    function RecommendForItem(itemIndex: int, topK: int, sim: Similarity): (r: Result<Table, QueryError>)
      reads this
      ensures embeddings.None? ==> r == Err(NotReady)
      ensures embeddings.Some? && NumpyIndex(itemIndex, |embeddings.value|).None? ==> r == Err(IndexOutOfRange)
      ensures Aligned() && NumpyIndex(itemIndex, |df.rows|).Some? ==> r.Ok?
      ensures embeddings.Some? && NumpyIndex(itemIndex, |embeddings.value|).Some? ==>
        var emb := embeddings.value;
        r.Ok? <==> InRange(TopPositions(Scores(emb, emb[NumpyIndex(itemIndex, |emb|).value], sim), topK), |df.rows|)
      ensures r.Err? ==> r.error == NotReady || r.error == IndexOutOfRange
      ensures r.Ok? ==>
        (&& embeddings.Some? && NumpyIndex(itemIndex, |embeddings.value|).Some?
         && var emb := embeddings.value;
            var scores := Scores(emb, emb[NumpyIndex(itemIndex, |emb|).value], sim);
            var pos := TopPositions(scores, topK);
            RankedPositions(scores, topK, pos) && ScoredRows(df, pos, scores, r.value))
    {
      if embeddings.None? then Err(NotReady)
      else match NumpyIndex(itemIndex, |embeddings.value|)
        case None => Err(IndexOutOfRange)
        case Some(i) => RankRows(df, embeddings.value, embeddings.value[i], topK, sim)
    }

    /**
     * `get_popular`: the top_k rows by `rating`, else by `popularity`, else
     * the first top_k rows. The result keeps the columns and picks distinct
     * rows, in non-increasing key order, and no row left out has a larger
     * key than a row returned. Sorting a column that mixes strings and
     * numbers raises.
     */
    function GetPopular(topK: int): (r: Result<Table, QueryError>)
      reads this
      requires Valid()
      ensures r.Ok? ==> r.value.columns == df.columns
      ensures r.Ok? && topK >= 0 ==> |r.value.rows| == if topK < |df.rows| then topK else |df.rows|
      ensures PopularKey(df.columns).None? ==> r == Ok(Head(df, topK))
      ensures PopularKey(df.columns).Some? ==> (r.Ok? <==> Comparable(Column(df, PopularKey(df.columns).value)))
      ensures PopularKey(df.columns).Some? && r.Ok? ==>
        var c := PopularKey(df.columns).value;
        var pos := PopularPositions(df, c, topK);
        && TopByKey(Column(df, c), pos)
        && |r.value.rows| == |pos|
        && forall k :: 0 <= k < |pos| ==> pos[k] < |df.rows| && r.value.rows[k] == df.rows[pos[k]]
    {
      match PopularKey(df.columns)
      case None => Ok(Head(df, topK))
      case Some(c) =>
        var keys := Column(df, c);
        if !Comparable(keys) then Err(UnorderableKeys)
        else
          SortThenHead(df, keys, topK);
          SortedPrefixTop(keys, topK);
          Ok(Head(SortRowsBy(df, keys), topK))
    }
  }

  /**
   * `ContentRecommender(kind)`: load the catalog, then prepare the embedding
   * matrix from the cache or by a rebuild. Either step can raise.
   */
  method NewContentRecommender(kind: string, file: DataLoader.CatalogFile, model: Encoder, store: EmbeddingStore)
    returns (r: Result<ContentRecommender, InitError>)
    requires DataLoader.ValidFile(file)
    modifies store
    ensures DataLoader.LoadSpec(kind, file).Err? ==>
      r == Err(CatalogUnavailable(DataLoader.LoadSpec(kind, file).error)) && unchanged(store)
    ensures DataLoader.LoadSpec(kind, file).Ok? ==> DataLoader.Loaded(DataLoader.LoadSpec(kind, file).value)
    ensures DataLoader.LoadSpec(kind, file).Ok? ==>
      var s := ResolveSpec(DataLoader.LoadSpec(kind, file).value, old(store.matrixFile), old(store.indexFile), model);
      && (r.Ok? <==> s.Some?)
      && (r.Err? ==> r.error == TextNotCombinable)
      && (r.Ok? ==> fresh(r.value) && r.value.Valid() && r.value.kind == kind && r.value.model == model && r.value.store == store
                    && r.value.df == s.value.df && r.value.embeddings == Some(s.value.embeddings))
    ensures r.Ok? && CacheLoadSpec(DataLoader.LoadSpec(kind, file).value, old(store.matrixFile), old(store.indexFile)).Some? ==>
      r.value.encoded == [] && unchanged(store)
    ensures r.Ok? && CacheLoadSpec(DataLoader.LoadSpec(kind, file).value, old(store.matrixFile), old(store.indexFile)).None? ==>
      r.value.Aligned() && |r.value.encoded| == 1 &&
      store.matrixFile == Stored(r.value.embeddings.value) && store.indexFile == Stored(Range(|r.value.df.rows|))
  {
    var loaded := DataLoader.LoadCsv(kind, file);
    if loaded.Err? {
      return Err(CatalogUnavailable(loaded.error));
    }
    var rec := new ContentRecommender(kind, loaded.value, model, store);
    var ok := rec.EnsureEmbeddings();
    if !ok {
      return Err(TextNotCombinable);
    }
    return Ok(rec);
  }

  /**
   * Two constructions in a row over the same catalog: when the first one
   * succeeds, the second reads the cache it wrote, encodes nothing, and ends
   * with the same matrix and the catalog rows in the same order.
   */
  method ConstructTwice(kind: string, file: DataLoader.CatalogFile, model: Encoder, store: EmbeddingStore)
    returns (first: Result<ContentRecommender, InitError>, second: Result<ContentRecommender, InitError>)
    requires DataLoader.ValidFile(file)
    modifies store
    ensures first.Ok? ==> second.Ok? && second.value.encoded == []
    ensures first.Ok? ==> second.value.embeddings == first.value.embeddings
    ensures first.Ok? ==> DataLoader.LoadSpec(kind, file).Ok?
    ensures first.Ok? && CacheLoadSpec(DataLoader.LoadSpec(kind, file).value, old(store.matrixFile), old(store.indexFile)).Some? ==>
      second.value.df == first.value.df
    ensures first.Ok? && CacheLoadSpec(DataLoader.LoadSpec(kind, file).value, old(store.matrixFile), old(store.indexFile)).None? ==>
      && second.value.df == DataLoader.LoadSpec(kind, file).value && WellFormed(second.value.df)
      && first.value.df == WithTextColumns(second.value.df)
  {
    var m0, i0 := store.matrixFile, store.indexFile;
    first := NewContentRecommender(kind, file, model, store);
    if first.Ok? {
      SecondConstructionLoads(DataLoader.LoadSpec(kind, file).value, m0, i0, model);
    }
    second := NewContentRecommender(kind, file, model, store);
  }
}
