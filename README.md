# moview — a Dafny model of its movie feed, movie store and OMDb lookups

moview is an Android app that keeps a local Room database of movies. This project models its
core and proves properties of the model:

- **The bulk feed parser** (`MainActivity.fetchAndParseMovies` and `createMovieFromMap`). A text
  feed is read line by line. Blank lines separate blocks. A line with a colon starts a field, and a
  line without one continues the current field. Each non-empty block becomes one `Movie`.
  `BulkParser.Step` is one iteration of the source's loop. `BulkParser.Parse` is the whole feed.
  `BulkParser.FetchAndParseMovies` is the imperative version, proved to compute `Parse`. Its
  reading loop is `ReadLines`, the loop body is `ReadLine`, and the flush shared by the blank-line
  branch and the end of input is `FlushBlock`.
  `BulkRoundTrip` writes records in the feed's own format and proves that parsing gives them back.
- **The `movies` table and `MovieDao`** (`MovieStore`, `SqlLike`):
  - the `INTEGER PRIMARY KEY AUTOINCREMENT` key, where a key of 0 receives a fresh key;
  - `INSERT OR REPLACE` for both inserts;
  - the actor query `LOWER(actors) LIKE '%' || LOWER(:actorName) || '%'`, with SQLite's `LIKE`
    written out;
  - the full scan.

  `MovieStore.MovieDao` is a class over the table's rows and its `sqlite_sequence` high-water mark.
- **The OMDb title lookup** (`SearchMoviesActivity`: `fetchMovieFromApi`, `saveMovieToDb`, and
  the screen state changed by `performSearch` and the relaunch effect), in `Omdb` and
  `TitleLookup`.
- **The OMDb substring search** (`SearchTitleWebActivity`), in `TitleSearch`:
  - the key and term guards;
  - the result loop, capped at ten elements;
  - the search button's enable rule and the poster rule;
  - the screen's state and what it displays.

Network requests are not performed. Each one is modelled by its outcome, which is a parameter:
- `BulkParser.Feed` holds the lines read and whether the read threw.
- `Omdb.Exchange` holds either the exception, or the status code and the body as parsed by
  `JSONObject`.

Kotlin's `trim` (with `Char.isWhitespace`), `isBlank`, `removeSurrounding("\"")`, `indexOf`,
`optString` in its three forms, and `Result`/`Exception.message` are written out in `Text`,
`Omdb` and `Outcomes`.

Notes on the source:
- Records have no `imdbID` field, and no uniqueness policy exists beyond the surrogate key.
- `deleteAllMovies` is called at `MainActivity.kt:122` but is not declared in `MovieDao.kt`.
  It is therefore modelled only as "the table is empty afterwards".
- A block can never fail to become a record. `createMovieFromMap` only reads the map, so the
  per-block `catch` in the source cannot be reached.

## Model

| member | source | states |
|---|---|---|
| Outcomes.MessageOr | app/src/main/java/com/sameerasw/moview/SearchMoviesActivity.kt:188 | `error.message ?: fallback`: the exception's message when it has one, the fallback otherwise |
| Outcomes.Raise | app/src/main/java/com/sameerasw/moview/SearchMoviesActivity.kt:91 | `Exception(text)` carries exactly `text` as its message |
| Text.Trim | app/src/main/java/com/sameerasw/moview/MainActivity.kt:165 | `trim()` never lengthens its input, and its result neither starts nor ends with whitespace |
| Text.TrimSpec | app/src/main/java/com/sameerasw/moview/MainActivity.kt:165 | `trim` never lengthens; its result is empty exactly for blank input; it starts and ends with non-whitespace; it leaves a string that already does so unchanged |
| Text.TrimStartSpec | app/src/main/java/com/sameerasw/moview/MainActivity.kt:165 | trimming the start removes exactly a whitespace prefix and stops at the first non-whitespace character |
| Text.TrimEndSpec | app/src/main/java/com/sameerasw/moview/MainActivity.kt:165 | trimming the end removes exactly a whitespace suffix and stops at the last non-whitespace character |
| Text.RemoveSurroundingQuotes | app/src/main/java/com/sameerasw/moview/MainActivity.kt:169 | removes one quote from each end when the text is at least two characters long and quoted at both ends; otherwise returns the text unchanged |
| Text.RemoveSurroundingQuotesInverse | app/src/main/java/com/sameerasw/moview/MainActivity.kt:194 | removing the quotes from a quoted text gives back exactly what was quoted |
| Text.IndexOfSpec | app/src/main/java/com/sameerasw/moview/MainActivity.kt:187 | `indexOf(':')` is -1 exactly when no colon is present; otherwise it is the position of the first colon |
| Text.IndexOf | app/src/main/java/com/sameerasw/moview/MainActivity.kt:187 | `indexOf(':')` is -1 or a position inside the string |
| Text.Lower | app/src/main/java/com/sameerasw/moview/data/MovieDao.kt:19 | SQLite `LOWER` keeps the length and lowers each character on its own, ASCII letters only |
| Text.IntToString | app/src/main/java/com/sameerasw/moview/SearchMoviesActivity.kt:114 | the decimal text of the status code in the message template is non-empty and starts with `-` exactly for a negative number |
| Text.IntToStringInjective | app/src/main/java/com/sameerasw/moview/SearchMoviesActivity.kt:114 | the decimal text of an integer determines the integer |
| Text.IsWhitespace | app/src/main/java/com/sameerasw/moview/MainActivity.kt:165 | the characters `trim` drops include space, tab, newline and carriage return, and never a letter, a digit or the feed's punctuation `:` `"` `%` `_` |
| Text.IsBlank | app/src/main/java/com/sameerasw/moview/SearchTitleWebActivity.kt:77 | `isBlank()` holds for the empty string, and fails exactly when some character is not whitespace |
| Movies.NewMovie | app/src/main/java/com/sameerasw/moview/data/Movie.kt:7-24 | the constructor without `id` gives the default key 0 and each content field as passed |
| Movies.KeyIsPartOfEquality | app/src/main/java/com/sameerasw/moview/data/Movie.kt:7-9 | data-class equality includes the key: records that differ only in `id` are unequal, and equal once their keys are reset |
| BulkParser.Lookup | app/src/main/java/com/sameerasw/moview/MainActivity.kt:237-249 | `data[key]` is null exactly when the key is absent, and the key's value otherwise |
| BulkParser.CreateMovieFromMap | app/src/main/java/com/sameerasw/moview/MainActivity.kt:235-251 | the record built from a block carries the default key |
| BulkParser.UnrecognisedKeysIgnored | app/src/main/java/com/sameerasw/moview/MainActivity.kt:235-251 | adding or changing a key outside the thirteen recognised, case-sensitive names never changes the record |
| BulkParser.Step | app/src/main/java/com/sameerasw/moview/MainActivity.kt:164-207 | one iteration of the reading loop: only a line that is empty once trimmed can emit a record, and it leaves no key current and an empty field map |
| BulkParser.EndBlock | app/src/main/java/com/sameerasw/moview/MainActivity.kt:167-185 | the end of a block (also the flush at lines 209-221): key, buffer and map are cleared, and the output grows by exactly one record, built from the committed map, when that map is non-empty |
| BulkParser.CommitRule | app/src/main/java/com/sameerasw/moview/MainActivity.kt:168-170 | the pending field is committed only when a key is current and its buffer is non-empty; it then gets the buffer trimmed with one quote pair removed, and every other key keeps its value |
| BulkParser.CommitPending | app/src/main/java/com/sameerasw/moview/MainActivity.kt:168-170 | committing never drops a field already in the block; with no current key or an empty buffer the block is unchanged |
| BulkParser.FetchAndParseMovies | app/src/main/java/com/sameerasw/moview/MainActivity.kt:144-233 | the loop's result is `Parse` of the lines read; a failed fetch or read gives the empty list and discards the records already parsed |
| BulkParser.ReadLines | app/src/main/java/com/sameerasw/moview/MainActivity.kt:164-207 | the reading loop over the four local variables ends in the state the fold `Run` gives for the lines read |
| BulkParser.ReadLine | app/src/main/java/com/sameerasw/moview/MainActivity.kt:165-206 | one pass of the loop body over the local variables is exactly one `Step` |
| BulkParser.FlushBlock | app/src/main/java/com/sameerasw/moview/MainActivity.kt:209-221 | the flush after the loop (the same code as the blank-line branch) gives the output list `EndBlock` describes |
| BulkParser.BlankLineEndsBlock | app/src/main/java/com/sameerasw/moview/MainActivity.kt:165-185 | a blank line ends the block, exactly as the end of input does: key and map are cleared |
| BulkParser.ColonLineStartsField | app/src/main/java/com/sameerasw/moview/MainActivity.kt:187-196 | a line `k:v`, split at its first colon, commits the pending field and starts key `k` (trimmed, one quote pair removed) with buffer `v` trimmed; later colons stay in the value |
| BulkParser.ContinuationLine | app/src/main/java/com/sameerasw/moview/MainActivity.kt:198-204 | a line without a colon is appended to the current value, joined by one space when the buffer is non-empty; with no current key it is skipped |
| BulkParser.RunAppend | app/src/main/java/com/sameerasw/moview/MainActivity.kt:164-207 | the loop is a left fold: reading `a` then `b` is reading `a + b` |
| BulkParser.RunKeepsOutput | app/src/main/java/com/sameerasw/moview/MainActivity.kt:164-207 | records already added to the output list are never inspected or changed again |
| BulkParser.RunOnlyAppends | app/src/main/java/com/sameerasw/moview/MainActivity.kt:164-207 | reading only appends to the output list: records already emitted are never removed or reordered, and each line adds at most one record |
| BulkParser.BlocksIndependent | app/src/main/java/com/sameerasw/moview/MainActivity.kt:164-207 | the records of `a`, a blank line, then `b` are the records of `a` followed by those of `b`, in order |
| BulkParser.EndOfInputIsBlankLine | app/src/main/java/com/sameerasw/moview/MainActivity.kt:209-221 | the flush at end of input acts exactly as one more blank line |
| BulkParser.ParseEmpty | app/src/main/java/com/sameerasw/moview/MainActivity.kt:144-233 | an empty feed gives no record |
| BulkParser.ConsecutiveBlankLines | app/src/main/java/com/sameerasw/moview/MainActivity.kt:167-184 | a blank line right after another adds no record and changes nothing |
| BulkParser.BlankLinesOnly | app/src/main/java/com/sameerasw/moview/MainActivity.kt:167-184 | a feed of blank lines only, of any length, gives no record |
| BulkParser.Parse | app/src/main/java/com/sameerasw/moview/MainActivity.kt:144-233 | the records of a whole feed; every one carries the default key, so the store gives each one a fresh key |
| BulkRoundTrip.ParseEntries | app/src/main/java/com/sameerasw/moview/MainActivity.kt:164-221 | a block of `"key": "value"` lines parses to the record of the map built by assigning them in order |
| BulkRoundTrip.RepeatedKeyLastWins | app/src/main/java/com/sameerasw/moview/MainActivity.kt:190-192 | within one block, a repeated key keeps the value of its last line |
| BulkRoundTrip.BlockOfMovie | app/src/main/java/com/sameerasw/moview/MainActivity.kt:235-251 | the mapper reads back every field from the block that writes a record's present fields |
| BulkRoundTrip.MovieRoundTrip | app/src/main/java/com/sameerasw/moview/MainActivity.kt:164-251 | writing a record that has a field as a block and parsing it gives that record back, with its key reset |
| BulkRoundTrip.EmptyMovieWritesNothing | app/src/main/java/com/sameerasw/moview/MainActivity.kt:172 | a record with no field writes an empty block, which gives no record |
| BulkRoundTrip.MoviesRoundTrip | app/src/main/java/com/sameerasw/moview/MainActivity.kt:164-251 | a written feed parses back to the same records in the same order, each with its key reset |
| SqlLike.Like | app/src/main/java/com/sameerasw/moview/data/MovieDao.kt:19 | SQLite `LIKE` without `ESCAPE`: a pattern without `%` only matches a string of its own length, each character standing for one |
| SqlLike.ActorLike | app/src/main/java/com/sameerasw/moview/data/MovieDao.kt:19 | a NULL `actors` column never matches |
| SqlLike.LeadingPercent | app/src/main/java/com/sameerasw/moview/data/MovieDao.kt:19 | a leading `%` matches exactly when the rest of the pattern matches some suffix |
| SqlLike.LiteralPrefix | app/src/main/java/com/sameerasw/moview/data/MovieDao.kt:19 | a wildcard-free literal at the head of a pattern matches exactly an ASCII-case-insensitive equal prefix |
| SqlLike.SubstringPattern | app/src/main/java/com/sameerasw/moview/data/MovieDao.kt:19 | for a wildcard-free query, `%q%` is exactly the ASCII-case-insensitive substring test |
| SqlLike.ActorSearchIsSubstring | app/src/main/java/com/sameerasw/moview/data/MovieDao.kt:19-20 | for a query without `%` or `_`, a row is selected exactly when its actors are not NULL and contain the query, ignoring ASCII case |
| SqlLike.EmptyQueryMatchesAll | app/src/main/java/com/sameerasw/moview/data/MovieDao.kt:19-20 | the empty query selects exactly the rows whose actors are not NULL |
| SqlLike.PercentQueryMatchesAll | app/src/main/java/com/sameerasw/moview/data/MovieDao.kt:19-20 | `%` in the query is not escaped: the query `%` also selects every non-NULL row |
| SqlLike.UnderscoreQueryNeedsOneCharacter | app/src/main/java/com/sameerasw/moview/data/MovieDao.kt:19-20 | `_` in the query is not escaped: the query `_` selects exactly the rows with a non-empty actors value |
| MovieStore.AssignedId | app/src/main/java/com/sameerasw/moview/data/Movie.kt:9 | a record with key 0 gets the high-water mark plus one, a key no row of a well-formed table holds; any other key is kept |
| MovieStore.FindRow | app/src/main/java/com/sameerasw/moview/data/MovieDao.kt:12-13 | the conflict lookup finds the row holding the key, or reports that none does |
| MovieStore.Upsert | app/src/main/java/com/sameerasw/moview/data/MovieDao.kt:12-13 | `INSERT OR REPLACE` of a row: the row is stored, and the row count grows by at most one |
| MovieStore.Insert | app/src/main/java/com/sameerasw/moview/data/MovieDao.kt:12-13 | the record is stored under its assigned key, the high-water mark never falls and reaches that key, and no row is lost from the count |
| MovieStore.InsertSpec | app/src/main/java/com/sameerasw/moview/data/MovieDao.kt:12-13 | an insert stores the record under its assigned key and keeps every row under another key; nothing else appears; the count grows exactly when the key was new; the table stays well-formed |
| MovieStore.ReplaceKeepsCount | app/src/main/java/com/sameerasw/moview/data/MovieDao.kt:12-13 | REPLACE: a record whose key is present overwrites that row, and the count is unchanged |
| MovieStore.AutoIdAddsRow | app/src/main/java/com/sameerasw/moview/data/Movie.kt:9 | a record with the default key always adds a row, under the high-water mark plus one |
| MovieStore.AutoIdAppends | app/src/main/java/com/sameerasw/moview/data/Movie.kt:9 | a record with the default key is appended after every stored row, under the high-water mark plus one, which becomes the new mark; the table stays well-formed |
| MovieStore.InsertNextKey | app/src/main/java/com/sameerasw/moview/data/Movie.kt:9 | the same append stated for a table given by its rows and high-water mark |
| MovieStore.SameContentTwice | app/src/main/java/com/sameerasw/moview/data/MovieDao.kt:12-13 | no deduplication by content: the same keyless record inserted twice gives two rows with consecutive keys |
| MovieStore.InsertAll | app/src/main/java/com/sameerasw/moview/data/MovieDao.kt:16-17 | a batch, one insert per record in order: the high-water mark never falls, and the table gains at most one row per record and never loses one from the count |
| MovieStore.InsertAllDefaultIds | app/src/main/java/com/sameerasw/moview/data/MovieDao.kt:16-17 | a batch of keyless records adds exactly one row per record and raises the high-water mark by the batch size; every row already stored stays, and the `i`-th record is stored under the fresh key `sequence + i + 1` |
| MovieStore.InsertAllAppends | app/src/main/java/com/sameerasw/moview/data/MovieDao.kt:16-17 | a batch of keyless records is appended after the existing rows, in order, under consecutive keys after the high-water mark |
| MovieStore.InsertAllKeepsWellFormed | app/src/main/java/com/sameerasw/moview/data/MovieDao.kt:16-17 | any batch keeps the table well-formed and never loses a key |
| MovieStore.LoadingFeedAddsEveryRecord | app/src/main/java/com/sameerasw/moview/MainActivity.kt:73-78 | loading a parsed feed adds exactly one row per parsed record; the rows already stored stay, and the `i`-th parsed record is stored under the fresh key `sequence + i + 1` |
| MovieStore.Matching | app/src/main/java/com/sameerasw/moview/data/MovieDao.kt:19-20 | the query returns exactly the stored rows whose actors match, without adding or repeating any row |
| MovieStore.SearchAfterInsert | app/src/main/java/com/sameerasw/moview/data/MovieDao.kt:19-20 | a record just inserted is found by an actor query exactly when its actors match |
| MovieStore.MovieDao.constructor | app/src/main/java/com/sameerasw/moview/data/MovieDao.kt:8-9 | a new table is empty and well-formed |
| MovieStore.MovieDao.InsertMovie | app/src/main/java/com/sameerasw/moview/data/MovieDao.kt:12-13 | `insertMovie` applies the insert rule to the state and keeps it well-formed |
| MovieStore.MovieDao.InsertMovies | app/src/main/java/com/sameerasw/moview/data/MovieDao.kt:16-17 | `insertMovies` applies the insert rule to each record in list order |
| MovieStore.MovieDao.DeleteAllMovies | app/src/main/java/com/sameerasw/moview/MainActivity.kt:121-123 | the table is empty and well-formed afterwards |
| MovieStore.MovieDao.FindMoviesByActor | app/src/main/java/com/sameerasw/moview/data/MovieDao.kt:19-20 | the rows whose actors match the query, and no others, drawn from `getAllMovies` |
| MovieStore.MovieDao.GetAllMovies | app/src/main/java/com/sameerasw/moview/data/MovieDao.kt:22-23 | every stored row, up to order |
| Omdb.OptString | app/src/main/java/com/sameerasw/moview/SearchMoviesActivity.kt:90 | `optString(key)`: the member's value, or `""` when the member is missing |
| Omdb.OptStringOr | app/src/main/java/com/sameerasw/moview/SearchMoviesActivity.kt:91 | `optString(key, fallback)`: the member's value, or the fallback |
| Omdb.OptStringOrNull | app/src/main/java/com/sameerasw/moview/SearchMoviesActivity.kt:96-108 | `optString(key, null)`: null exactly when the member is missing |
| Omdb.ReportsFailure | app/src/main/java/com/sameerasw/moview/SearchMoviesActivity.kt:90 | the answer reports a failure exactly when its `Response` member is present and is the text `False`; a missing member never does |
| Omdb.StatusError | app/src/main/java/com/sameerasw/moview/SearchMoviesActivity.kt:114 | the non-200 failure's message starts with `OMDb API error: ` and goes on with the code |
| Omdb.StatusErrorInjective | app/src/main/java/com/sameerasw/moview/SearchMoviesActivity.kt:114 | different status codes give different messages |
| Omdb.Envelope | app/src/main/java/com/sameerasw/moview/SearchMoviesActivity.kt:81-92 | the shared checks succeed exactly for a 200 answer that parses and does not say `Response` `"False"`, and then hand on that payload |
| Omdb.EnvelopeFailures | app/src/main/java/com/sameerasw/moview/SearchMoviesActivity.kt:81-120 | every failure path with its exception: the thrown one, the status failure, the parse failure, and the `Error` text with its default |
| TitleLookup.MovieFromJson | app/src/main/java/com/sameerasw/moview/SearchMoviesActivity.kt:95-109 | the record read from the answer carries the default key |
| TitleLookup.ApiAndFeedMappersAgree | app/src/main/java/com/sameerasw/moview/SearchMoviesActivity.kt:95-109 | the API mapper and the feed mapper read the same thirteen keys: the same members give the same record |
| TitleLookup.FetchMovieFromApi | app/src/main/java/com/sameerasw/moview/SearchMoviesActivity.kt:67-125 | success exactly when the answer is accepted, with the record read from it; otherwise the thrown exception, the status failure, the body's parse exception passed on as it is, or the `Error` text defaulting to "Movie not found" |
| TitleLookup.FetchedFieldsByKey | app/src/main/java/com/sameerasw/moview/SearchMoviesActivity.kt:95-111 | a missing member gives a null field and a present one its text |
| TitleLookup.NotFoundDefault | app/src/main/java/com/sameerasw/moview/SearchMoviesActivity.kt:90-91 | a reported failure without `Error` gives "Movie not found" |
| TitleLookup.SaveMovieToDb | app/src/main/java/com/sameerasw/moview/SearchMoviesActivity.kt:128-137 | true exactly when the insert completes; the table then has the record inserted, and is unchanged otherwise |
| TitleLookup.SearchMoviesScreen.constructor | app/src/main/java/com/sameerasw/moview/SearchMoviesActivity.kt:146-151 | the screen's initial state |
| TitleLookup.SearchMoviesScreen.EditText | app/src/main/java/com/sameerasw/moview/SearchMoviesActivity.kt:254 | the field's text is the typed text |
| TitleLookup.SearchMoviesScreen.PerformSearch | app/src/main/java/com/sameerasw/moview/SearchMoviesActivity.kt:174-196 | a lookup is launched exactly for non-blank text and a real key, clearing earlier output; otherwise only the message changes, the key message taking precedence |
| TitleLookup.SearchMoviesScreen.Relaunch | app/src/main/java/com/sameerasw/moview/SearchMoviesActivity.kt:157-172 | a remembered non-blank term is looked up again, without the key check |
| TitleLookup.SearchMoviesScreen.CompleteSearch | app/src/main/java/com/sameerasw/moview/SearchMoviesActivity.kt:163-170 | loading stops and the record or the message is shown; after a launch, exactly one of the two is shown |
| TitleLookup.SearchMoviesScreen.Search | app/src/main/java/com/sameerasw/moview/SearchMoviesActivity.kt:174-190 | a launched search ends settled, and shows a record exactly when the answer was accepted |
| TitleSearch.FirstNonObject | app/src/main/java/com/sameerasw/moview/SearchTitleWebActivity.kt:113 | the first array element that `getJSONObject` rejects, if any |
| TitleSearch.Collect | app/src/main/java/com/sameerasw/moview/SearchTitleWebActivity.kt:112-122 | one result per element, in order, when every element is an object; otherwise the exception at the first element that is not |
| TitleSearch.Capped | app/src/main/java/com/sameerasw/moview/SearchTitleWebActivity.kt:112 | the loop reads the first `min(length, 10)` elements |
| TitleSearch.ResultsOf | app/src/main/java/com/sameerasw/moview/SearchTitleWebActivity.kt:108-125 | the results of an accepted answer: at most ten, and exactly ten on success when the array holds ten or more |
| TitleSearch.ResultFromJson | app/src/main/java/com/sameerasw/moview/SearchTitleWebActivity.kt:114-121 | each of title, year, type and poster is null exactly when its member is missing, and the member's value otherwise |
| TitleSearch.SearchOutcome | app/src/main/java/com/sameerasw/moview/SearchTitleWebActivity.kt:70-139 | a success needs a real, non-blank key, a non-blank term and an accepted answer, and holds at most ten results |
| TitleSearch.GuardsFirst | app/src/main/java/com/sameerasw/moview/SearchTitleWebActivity.kt:74-79 | a placeholder or blank key fails with "API Key not set", and then a blank term with "Search term cannot be empty", whatever the answer |
| TitleSearch.AtMostTen | app/src/main/java/com/sameerasw/moview/SearchTitleWebActivity.kt:112 | a success holds at most ten results |
| TitleSearch.SuccessIsCappedPrefix | app/src/main/java/com/sameerasw/moview/SearchTitleWebActivity.kt:108-125 | a success comes from an accepted answer and holds the results of the first `min(n, 10)` elements, in order; it is empty without a `Search` array |
| TitleSearch.TailIgnored | app/src/main/java/com/sameerasw/moview/SearchTitleWebActivity.kt:112 | elements after the tenth are never read, even ones that are not objects |
| TitleSearch.NoResultsDefault | app/src/main/java/com/sameerasw/moview/SearchTitleWebActivity.kt:104-105 | a reported failure without `Error` gives "No results found" |
| TitleSearch.StatusFailure | app/src/main/java/com/sameerasw/moview/SearchTitleWebActivity.kt:127-128 | once the guards pass, a non-200 status gives the status failure |
| TitleSearch.BuildResults | app/src/main/java/com/sameerasw/moview/SearchTitleWebActivity.kt:109-123 | the result loop computes the capped results of the array, or the first element's exception |
| TitleSearch.SearchMoviesBySubstring | app/src/main/java/com/sameerasw/moview/SearchTitleWebActivity.kt:70-139 | the guards, then the shared checks with "No results found" as default, then the result loop |
| TitleSearch.SearchButtonEnabled | app/src/main/java/com/sameerasw/moview/SearchTitleWebActivity.kt:191 | the button is enabled exactly when nothing is loading, the key is not the placeholder, and the text is not empty once trimmed |
| TitleSearch.EnabledSearchPassesGuards | app/src/main/java/com/sameerasw/moview/SearchTitleWebActivity.kt:191 | for every term an enabled button allows, the outcome with a non-blank key is that of the shared checks and the result loop alone; a blank key is still refused by the key guard |
| TitleSearch.ShouldLoadPoster | app/src/main/java/com/sameerasw/moview/SearchTitleWebActivity.kt:236 | a poster is fetched only for a present, non-empty URL, and never for `"N/A"` |
| TitleSearch.PosterOfResult | app/src/main/java/com/sameerasw/moview/SearchTitleWebActivity.kt:236 | a poster is downloaded exactly when `Poster` is present, non-empty and not `"N/A"` |
| TitleSearch.SearchTitleWebScreen.constructor | app/src/main/java/com/sameerasw/moview/SearchTitleWebActivity.kt:147-151 | the screen's initial state |
| TitleSearch.SearchTitleWebScreen.EditText | app/src/main/java/com/sameerasw/moview/SearchTitleWebActivity.kt:169 | the field's text is the typed text |
| TitleSearch.SearchTitleWebScreen.Shown | app/src/main/java/com/sameerasw/moview/SearchTitleWebActivity.kt:199-223 | nothing is shown exactly before any search, when nothing is loading or listed and there is no error |
| TitleSearch.SearchTitleWebScreen.Click | app/src/main/java/com/sameerasw/moview/SearchTitleWebActivity.kt:176-181 | a click clears earlier output and shows the spinner |
| TitleSearch.SearchTitleWebScreen.Complete | app/src/main/java/com/sameerasw/moview/SearchTitleWebActivity.kt:182-188 | loading stops, and the results or the failure's message (default "Unknown search error") are kept |
| TitleSearch.SearchTitleWebScreen.Search | app/src/main/java/com/sameerasw/moview/SearchTitleWebActivity.kt:176-190 | a search shows the error, the empty message, or the list of at most ten results, according to its outcome |

## Left out

- Network access is left out: URL building, `URLEncoder`, connect and read timeouts, and closing streams and connections. A request is modelled only by its outcome (`Feed`, `Exchange`), which is a parameter.
- org.json is reduced to what `optString` returns. A non-string member is taken as its `optString` text, and JSON `null` is not modelled separately. The `Search` array is modelled as `optJSONArray`'s result. The text of a parse exception is part of the input.
- The exception texts of the network and database layers are inputs, not modelled strings.
- Coroutines, dispatchers, `lifecycleScope` and the interleaving of a running search with further clicks are left out. Each modelled search runs to completion before the next. On the title screen the text field is disabled while loading.
- Logging (`println`, `Log`), Toasts, Compose layout, `MovieDetailDisplay` and `SearchStateDisplay` are left out. On the title screen, the empty-state view is not modelled.
- `SearchActorsActivity` and the `MovieDatabase` singleton are not part of this model. `MovieDao` is modelled as one table object.
- `downloadBitmap` and image decoding are not part of this model. Only the rule deciding whether a poster is fetched is modelled.
- Row order is not modelled. `SELECT` without `ORDER BY` promises no order, so `getAllMovies` and `findMoviesByActor` are stated as membership and multisets.
- MovieStore.MovieDao.DeleteAllMovies: the method is not declared in `MovieDao.kt`. Only "the table is empty afterwards" is stated, and nothing about the key counter.
- MovieStore.Insert: keys are unbounded integers. The 64-bit key range and SQLite's failure once the largest key is in use are not modelled.
- TitleLookup.SaveMovieToDb: whether Room throws is a parameter, not a modelled failure of the database.
- BulkParser.FetchAndParseMovies: the feed arrives already split into lines, as `readLine` delivers it. Line terminators are not modelled.
- The per-block `catch` around `createMovieFromMap` is not modelled. The mapper only reads the map and cannot throw.
- The parse-then-insert flow of `addInitialMoviesToDb` is left out beyond `MovieStore.LoadingFeedAddsEveryRecord`.
