# Content recommender: a Dafny model

This project models the core of a small content-recommendation engine for a
catalog of movies, series or anime:

- **The catalog loader** (`load_csv`, `preview`). It reads `data/<kind>.csv`.
  When every CSV encoding fails, it reads the file as plain lines instead.
  It then makes sure the table has a `title` column, strips the titles,
  drops rows with an empty title, renumbers the rest 0..M-1 and fills every
  gap with `""`.
- **The offline cleaning script** (`normalize_df`). It does the same
  normalisation with its own rule for choosing the title column, and fills
  no gaps. On tables it is idempotent: normalising its output again changes
  nothing.
- **`ContentRecommender`**. It holds the catalog and one embedding vector per
  row. The vectors are either read back from a two-file cache (the matrix and
  the `orig_index` labels) or computed from each row's combined text
  `title . description . genres` and then cached. The recommender answers
  three queries:
  - `recommend_by_title`: the first title containing the query, or the query's
    own embedding when no title does.
  - `recommend_for_item`.
  - `get_popular`: by `rating`, else `popularity`, else catalog order.

A table is a sequence of rows plus its column list and the set of its columns
whose pandas dtype is `object` (`Tables.Table`). Each row maps column names to
cells (`Null`, a string, or an integer). The catalog's row labels are not
kept separately: the loader and the cache reload both renumber the rows with
`reset_index(drop=True)`, so a catalog row's label is its position. The
tables the three queries return are different. They keep the catalog labels
of the rows they pick, in result order, and those labels are not modelled
(see "Left out").

Modules:
- `Text`: strip, lower-case, substring, and integer formatting.
- `Tables`: the table model, column renaming and adding, Python slices,
  `head`, `fillna`, `loc`, and title cleaning.
- `Ordering`: the descending argsort and its properties.
- `Ranking`: the shared ranking rule.
- `DataLoader`, `CleanCsvs` and `Recommender`: the three pieces above.

The sentence-embedding model is a parameter `Encoder`: any function that
returns one vector per text. Cosine similarity is a parameter `Similarity`
with integer scores. File contents, CSV parse results and cache files are
inputs: `DataLoader.CatalogFile` and the `Recommender.EmbeddingStore` class,
whose files are `Absent`, `Unreadable` or `Stored`.

## Model

| member | source | states |
|---|---|---|
| `Text.StripSpec` | src/data_loader.py:16 | `Strip` (`str.strip()`) returns a slice of the input that has no whitespace at either end, and only whitespace is cut away on either side |
| `Text.StripIdempotent` | scripts/validate_and_clean_csvs.py:71 | stripping a stripped title changes nothing |
| `Text.StripEmptyIff` | src/data_loader.py:51 | a title strips to the empty string exactly when it is all whitespace |
| `Text.ContainsIff` | src/recommender.py:77 | `Contains`, the substring test, holds exactly when the query occurs at some position of the title |
| `Text.ContainsEmpty` | src/recommender.py:77 | the empty query is contained in every title |
| `Text.LowerNoUpper` | src/recommender.py:77 | no upper-case ASCII letter is left after `Lower` (`str.lower()`) |
| `Text.LowerIdempotent` | src/recommender.py:77 | lower-casing an already lower-cased text changes nothing |
| `Text.IntToString` | src/data_loader.py:49 | `astype(str)` of a number is a non-empty text with no whitespace, so it survives title cleaning |
| `Tables.Rename` | src/data_loader.py:45 | `rename` keeps the column's position, cells and object flag under the new name, and every other column with its cells and flag |
| `Tables.AddColumn` | src/recommender.py:50 | assigning a new column appends it and gives each row its cell, leaving the other cells alone. The new column is an object column exactly when `isObject` says so, and no other column's flag changes |
| `Tables.HeadPrefix` | src/data_loader.py:56 | for n >= 0, `Head(t, n)` (`head(n)`) is the first min(n, M) rows |
| `Tables.FillNa` | src/data_loader.py:52 | `fillna("")` keeps the columns and every present value and turns each gap into `""` |
| `Tables.Select` | src/recommender.py:39 | `loc[labels].reset_index(drop=True)` gives the labelled rows in label order and fails exactly when a label is not a row |
| `Tables.SelectRange` | src/recommender.py:71 | selecting the labels 0..M-1 gives the table back unchanged |
| `Tables.KeepTitledSpec` | src/data_loader.py:51 | `KeepTitled`, the filter, keeps exactly the rows with a non-empty title, in their original order. Each titled row is kept as many times as it occurs |
| `Tables.CleanTitlesClean` | src/data_loader.py:50-51 | after `CleanTitles`, every title is a stripped non-empty string, and the rows are a subsequence of the stripped rows |
| `Tables.CleanTitlesKeeps` | src/data_loader.py:50-51 | a row is dropped exactly when its title text is blank. Every other row is kept as many times as it occurs |
| `Tables.CleanTitlesIdempotent` | scripts/validate_and_clean_csvs.py:71-72 | a table whose titles are already clean comes out of cleaning unchanged |
| `Tables.CleanTitles` | src/data_loader.py:50-51 | title cleaning keeps the columns, leaves a well-formed table, and makes `title` a text column |
| `Ordering.ArgSortDesc` | src/recommender.py:106 | the descending sort order is a permutation of the positions with non-increasing keys, gaps last |
| `Ordering.SortedPrefixTop` | src/recommender.py:106 | the first n positions of the descending order are distinct, in key order, and no position left out has a larger key |
| `Ranking.TopPositionsSpec` | src/recommender.py:87 | `TopPositions` (`argsort(sims)[::-1][1:top_k+1]`) returns min(top_k, N-1) distinct positions (none for N = 0), in non-increasing score order. It leaves out one position of maximal score, and no other position left out scores higher than a returned one |
| `Ranking.WithScoresTable` | src/recommender.py:88 | `WithScores` (`iloc[pos].assign(score=...)`) on a well-formed table gives a well-formed table. A new `score` is appended as the last column, and an existing `score` column keeps its place and is no longer an object column |
| `Ranking.ScoredRowsDescend` | src/recommender.py:87-88 | rows joined at positions in non-increasing score order carry a numeric `score` column that does not increase down the rows |
| `Ranking.NumpyIndex` | src/recommender.py:92 | numpy indexing accepts -N <= i < N, with negative indices counting from the end |
| `DataLoader.CleanLinesStripped` | src/data_loader.py:16 | every line `CleanLines` keeps is stripped and non-empty |
| `DataLoader.CleanLinesInOrder` | src/data_loader.py:16 | the kept lines are the stripped lines, some dropped, the rest in order |
| `DataLoader.CleanLinesComplete` | src/data_loader.py:16 | no non-blank line is lost: each non-empty stripped line is kept as many times as it occurs |
| `DataLoader.PlainTextCases` | src/data_loader.py:17-28 | `PlainTextTable`: no lines gives an empty `title` table. Otherwise, unless a comma line re-parses, the first line is a header and the other lines (or the only line) are the titles |
| `DataLoader.SafeReadCsvCases` | src/data_loader.py:7-28 | `SafeReadCsv` (`_safe_read_csv`) returns a successful parse unchanged. Failing that, a file with no text gives an empty `title` table, a first line with a comma gives its re-parse when that parses, and otherwise the first line is a header and the other lines (or the only line) are the titles |
| `DataLoader.WithTitleChoice` | src/data_loader.py:41-49 | without `title`, the first object column is renamed to `title`. With none, `title` is appended as the first column's text |
| `DataLoader.WithTitle` | src/data_loader.py:41-49 | after title selection the table is well formed and has a `title` column. It raises exactly when there is no `title` and no column at all |
| `DataLoader.NormalizeSpec` | src/data_loader.py:39-52 | a catalog normalised by `Normalize` has a `title` column of stripped non-empty strings and no gaps, and is no longer than its input. It fails only on a table with no columns |
| `DataLoader.MissingFileRaises` | src/data_loader.py:34-36 | a missing `data/<kind>.csv` raises before anything is read |
| `DataLoader.EnsureTitleColumn` | src/data_loader.py:41-49 | the column scan, with its `for ... else` and `break`, ends with exactly the table `WithTitle` describes, or its error when there is no column at all |
| `DataLoader.LoadCsv` | src/data_loader.py:30-52 | the step-by-step loader with its `for ... else` column scan returns exactly `LoadSpec`, the normalised catalog or the loader's error |
| `DataLoader.Preview` | src/data_loader.py:54-56 | `preview(kind, n)` passes on the loader's error, and is otherwise `head(n)` of the loaded catalog, the first n rows for n >= 0 |
| `CleanCsvs.ReadAsLinesAgrees` | scripts/validate_and_clean_csvs.py:34-46 | `ReadAsLines`: the script reads an unparsable file exactly as the loader's plain-text fallback does |
| `CleanCsvs.InputAgrees` | scripts/validate_and_clean_csvs.py:34-46 | `Input`, the table the script works on, is exactly what the loader's `_safe_read_csv` gives for the same file: the parse when there is one, else the plain-text reading |
| `CleanCsvs.LooksLikeTitlesIff` | scripts/validate_and_clean_csvs.py:55-56 | a column passes the title test on its `Sample` exactly when it has a non-missing value, because the sample is already text |
| `CleanCsvs.DetectTitleChoice` | scripts/validate_and_clean_csvs.py:51-66 | without `title`, the first column with a value is renamed to `title`. Otherwise a lone column is renamed, or `title` is appended as the first column's text |
| `CleanCsvs.DetectTitle` | scripts/validate_and_clean_csvs.py:51-69 | after title detection the table has a `title` column, so the check at lines 68-69 never fires. It raises exactly when there is no column at all |
| `CleanCsvs.ChooseTitle` | scripts/validate_and_clean_csvs.py:51-66 | the column scan with `break`/`else` computes the title choice above |
| `CleanCsvs.NormalizeDfSound` | scripts/validate_and_clean_csvs.py:32-73 | every successful run of `NormalizeDfSpec` yields a `title` column of stripped non-empty strings. Only a table with no columns raises |
| `CleanCsvs.NormalizeDfFixpoint` | scripts/validate_and_clean_csvs.py:51-72 | an already normalised table comes out unchanged |
| `CleanCsvs.NormalizeDfIdempotent` | scripts/validate_and_clean_csvs.py:32-73 | at table level, normalising the output again changes nothing |
| `CleanCsvs.NormalizeDf` | scripts/validate_and_clean_csvs.py:32-73 | the step-by-step script returns the specified result, and its output is normalised |
| `Recommender.EmbeddingStore.Save` | src/recommender.py:69-72 | saving stores the matrix and the label list |
| `Recommender.WithTextColumns` | src/recommender.py:49-52 | a missing `description` and then a missing `genres` column are appended, in that order, with `""` in every row. The existing columns keep their order and object flags, the added ones are object columns, and every existing cell is kept |
| `Recommender.CombinedTextsSpec` | src/recommender.py:55-59 | `CombinedTexts`: row i's text is `title + " . " + description + " . " + genres`, with `""` for a missing field. Building the texts fails exactly when one of those fields holds a number |
| `Recommender.WithTextColumnsTexts` | src/recommender.py:49-59 | an added blank column gives the same texts as a missing one |
| `Recommender.BuildAligned` | src/recommender.py:46-66 | a rebuild (`BuildSpec`) encodes the ordered texts once and yields one vector per row of the prepared catalog |
| `Recommender.LoadSelects` | src/recommender.py:35-40 | a cache loads (`CacheLoadSpec`) exactly when both files are readable and every stored label is a row. The catalog becomes the labelled rows in label order, and the matrix is taken as stored |
| `Recommender.StaleCacheRebuilds` | src/recommender.py:35-44 | in `ResolveSpec`, a missing or unreadable file, or a label the catalog lacks, leads to a rebuild |
| `Recommender.CacheRoundTrip` | src/recommender.py:39-72 | what a rebuild stores reads back as the same matrix and the loaded catalog's rows in the same order |
| `Recommender.SecondConstructionLoads` | src/recommender.py:30-44 | after any successful construction, the next one over the same catalog loads the cache |
| `Recommender.FirstMatch` | src/recommender.py:77-83 | the query row is the first row whose lower-cased title contains the lower-cased query. There is none exactly when no title matches |
| `Recommender.EmptyQueryPicksFirst` | src/recommender.py:77-83 | an empty query selects row 0 |
| `Recommender.FirstOfSeveralMatches` | src/recommender.py:77-83 | with "Inception", "Interstellar" and "Inception 2", the query "Inception" selects row 0 |
| `Recommender.RankRows` | src/recommender.py:86-88 | an empty matrix raises `EmptyMatrix`. Otherwise the ranking succeeds exactly when every ranked position is a catalog row, and raises `IndexOutOfRange` when one is not (`iloc`). It always succeeds when the matrix is no longer than the catalog. A success gives the ranked positions and their scored rows, scored by `Scores` (`cosine_similarity([q], embeddings)[0]`) |
| `Recommender.RankRowsTable` | src/recommender.py:86-88 | a successful ranking is a well-formed table: the catalog's columns, with `score` appended unless it was already there. Its `score` column is numeric and non-increasing down the rows |
| `Recommender.PopularKey` | src/recommender.py:105-111 | `rating` takes priority over `popularity`. With only `popularity`, that is the key. With neither, there is no sort key |
| `Recommender.GapMakesKeysUnorderable` | src/data_loader.py:52 | after `fillna("")`, a numeric column with a gap mixes strings and numbers and cannot be sorted |
| `Recommender.SortThenHead` | src/recommender.py:106 | sorting with `SortRowsBy` and then taking `head(n)` gives the rows at the first n positions of the descending order |
| `Recommender.ContentRecommender.constructor` | src/recommender.py:17-27 | a new recommender holds the loaded catalog and no matrix yet |
| `Recommender.ContentRecommender.ComputeAndStoreEmbeddings` | src/recommender.py:46-72 | adds the text columns, encodes once, holds one vector per row and saves the matrix with the labels 0..N-1. When the texts cannot be built, nothing is encoded or saved |
| `Recommender.ContentRecommender.LoadCache` | src/recommender.py:36-40 | loads the matrix, keeping it even when the index then fails to read, and reorders the catalog when the labels match |
| `Recommender.ContentRecommender.EnsureEmbeddings` | src/recommender.py:30-44 | ends in the cached snapshot (no encoding, files untouched) or the rebuilt one. It fails only where the rebuild fails, leaving the catalog with the added text columns, and no mix of cached and rebuilt state survives a rebuild |
| `Recommender.ContentRecommender.RecommendByTitle` | src/recommender.py:74-88 | ranks the whole matrix against the first matching row's vector, or the encoded query when nothing matches. The result has the ranked positions' rows with their scores. A match past the matrix raises `IndexOutOfRange`, and an empty matrix otherwise raises `EmptyMatrix`. With a non-empty matrix the query succeeds exactly when every ranked position is a catalog row, and an aligned non-empty catalog always gives a result |
| `Recommender.ContentRecommender.TitleQuery` | src/recommender.py:77-84 | the query vector is the encoded query when no title matches. Otherwise it is the matching row's embedding, and it raises exactly when that row is past the matrix |
| `Recommender.ContentRecommender.RecommendForItem` | src/recommender.py:90-95 | ranks against the item's own vector. An out-of-range index raises `IndexOutOfRange`. With a valid index the query succeeds exactly when every ranked position is a catalog row, and an aligned catalog with a valid index always gives a result |
| `Recommender.ContentRecommender.GetPopular` | src/recommender.py:97-111 | keeps the columns and returns min(top_k, N) rows for top_k >= 0. With a sort key, the rows are distinct, in non-increasing key order, and no row left out has a larger key. A column mixing text and numbers raises. With no key, it returns `head(top_k)` |
| `Recommender.NewContentRecommender` | src/recommender.py:17-28 | construction loads the catalog and then resolves the matrix. It fails with the loader's error, or when a rebuild cannot build its texts |
| `Recommender.ConstructTwice` | src/recommender.py:30-44 | after a successful construction, a second one encodes nothing and has the same matrix. When the first one read the cache, the second has the same catalog. When the first one rebuilt, the second has the loaded catalog, and the first one's catalog is that with the text columns added |

### Behaviour of the code worth knowing

The model follows the code in each of these cases:

- **The dropped first element.** The ranking drops the first position of the
  descending order, whatever it is (`Ranking.TopPositionsSpec`). The comment
  on src/recommender.py:87 says this is meant to ignore the query item itself.
  The code drops that position in the no-match branch of
  `recommend_by_title` as well, where the query is not a catalog row, so
  there the best real result is lost. With ties at the top, the position
  dropped need not be the query's own row.
- **No alignment check on load.** The cache is used as soon as both files
  read and every label is a row. The matrix length is never compared with
  the label count (`Recommender.LoadSelects`). A matrix that is too short or
  too long shows up only in a later query, as `IndexOutOfRange`, if at all
  (`Recommender.RankRows`, `Recommender.ContentRecommender.TitleQuery`).
- **The empty query.** A caller might expect `recommend_by_title("")` to fall
  back to encoding the query. But `"" in title` holds for every title, so
  row 0 becomes the query (`Recommender.EmptyQueryPicksFirst`).
- **A `rating` column with a gap.** A caller might expect `get_popular` on
  ratings [3.0, missing, 5.0] to return 5.0 first, then 3.0. The loader's
  `fillna("")` turns the gap into an empty string, and sorting a column that
  mixes strings and numbers raises (`Recommender.GapMakesKeysUnorderable`,
  `Recommender.ContentRecommender.GetPopular`).
- **Order ties.** `np.argsort` and `sort_values` are not stable by default.
  - The model sorts with one fixed insertion sort, so `RankRows`, the two
    similarity queries and `GetPopular` return the rows in that sort's order.
    That order includes one particular order among equal scores or keys.
  - The properties proved about the order, `Ranking.RankedPositions` and
    `Ordering.TopByKey`, do not depend on how ties are broken. They hold for
    any descending order.

## Left out

- Sentence-embedding model loading and `encode`: a foreign library. `Encoder` is any length-preserving function from texts to vectors.
- Cosine similarity and floating point: scores are integers produced by a `Similarity` parameter.
- The module-level `SENTENCE_MODEL` lookup and `mkdir` of `data/embeddings`: environment and file system side effects.
- File I/O (`np.save`, `np.load`, `to_csv`, `read_csv` of the index file, `read_text`): `EmbeddingStore` holds each file's outcome as `Absent`, `Unreadable` or `Stored`.
- CSV parsing and the encoding retry loops of both readers (`try_read`, `detect_encoding`): `CatalogFile` and the script's inputs carry the parsed table, or its absence, as given data.
- `splitlines`: the file's lines are given as a sequence.
- Column dtypes: the `object` dtype is a given set of columns. `fillna`'s dtype changes are not tracked.
- Recommender.FirstMatch: lower-casing and matching are ASCII-only and literal. `str.contains` also treats the query as a regular expression and lower-cases Unicode, which this does not model.
- Text.IsSpace: covers ASCII whitespace and the separators U+001C to U+001F only, not Unicode whitespace beyond them.
- The `isinstance(df, pd.Series)` conversions of both normalisers: `read_csv` returns a DataFrame, so the branch never runs on data from these readers.
- The `isinstance(df, str)` branch of `get_popular`: `self.df` is always a DataFrame, so the branch never runs.
- `recommend_for_item` with a non-integer index, and the `top_k` argument's type: every index and `top_k` is an integer.
- The script's `main`: its file rewriting and reporting are I/O around `normalize_df`.
- `show_progress_bar` and `convert_to_numpy`: they do not affect the result.
- Floating-point cells: cells hold integers. pandas stores ratings, and any numeric column with a gap, as floats, and `astype(str)` gives texts such as "7.5" or "1917.0", whereas `ToStr` gives the integer's digits.
- CleanCsvs.NormalizeDfIdempotent: it is stated on tables. It assumes that writing the cleaned table with `to_csv` and reading it back with `read_csv` gives the same table. That round trip can change a title: a plain-text file with the title `N/A` is written as `N/A`, read back as a gap, and turned into "nan" by line 71 on the next run.
- Recommender.ContentRecommender.RecommendByTitle: a query that is not a valid regular expression, for example one containing `(`, makes `str.contains` raise. Under the literal matching modelled here, an aligned non-empty catalog always gives a result.
- Recommender.ContentRecommender.RecommendByTitle, Recommender.ContentRecommender.RecommendForItem, Recommender.ContentRecommender.GetPopular: the returned table's index is not carried. `iloc[top_idx]` and `sort_values(...).head(top_k)` keep each picked row's catalog label, its position in the catalog. The model returns the rows and their cells only. The positions are available as `TopPositions` and `PopularPositions`.
- The rest of the repository (the Streamlit UI, SQLite history, external fetchers) is not part of this model.
