/**
 * Writing records in the bulk feed's own format and parsing them back.
 *
 * A field is written as one line `"Key": "Value"` and a record as its present fields, in the
 * order `createMovieFromMap` lists them, followed by a blank line. Parsing such a feed gives
 * the same records back, with every key reset to its default, because the feed carries no key.
 */
module BulkRoundTrip {
  import opened Outcomes
  import opened Text
  import opened Movies
  import opened BulkParser

  /** A field name and its value, as written on one line of the feed. */
  type Entry = (string, string)

  /** The line `"key": "value"`. */
  function EntryLine(key: string, value: string): string {
    [Quote] + key + [Quote] + ": " + [Quote] + value + [Quote]
  }

  /** One line per entry, in order. */
  function EntryLines(es: seq<Entry>): (lines: seq<string>)
    ensures |lines| == |es|
  {
    if es == [] then [] else EntryLines(es[..|es| - 1]) + [EntryLine(es[|es| - 1].0, es[|es| - 1].1)]
  }

  /** The field map built by assigning the entries in order, so that a later entry of a key wins. */
  function BlockOf(es: seq<Entry>): FieldBlock {
    if es == [] then map[] else BlockOf(es[..|es| - 1])[es[|es| - 1].0 := es[|es| - 1].1]
  }

  /** No field name holds a colon (the parser splits a line at its first colon). */
  predicate KeysWithoutColon(es: seq<Entry>) {
    forall i :: 0 <= i < |es| ==> ':' !in es[i].0
  }

  /** Reading one entry line starts that key with the still-quoted value as its buffer. */
  lemma StepEntry(st: ParserState, k: string, v: string)
    requires ':' !in k
    ensures Step(st, EntryLine(k, v)) == ParserState(Some(k), [Quote] + v + [Quote], CommitPending(st), st.movies)
  {
    var line := EntryLine(k, v);
    var pre := [Quote] + k + [Quote];
    var post := " " + ([Quote] + v + [Quote]);
    assert line == pre + ":" + post;
    TrimSpec(line);
    assert Trim(line) == line;
    assert ':' !in pre;
    ColonLineStartsField(st, line, pre, post);
    TrimSpec(pre);
    RemoveSurroundingQuotesInverse(k);
    TrimLeadingSpace([Quote] + v + [Quote]);
    assert post == [' '] + ([Quote] + v + [Quote]);
    TrimSpec([Quote] + v + [Quote]);
  }

  /** A quoted buffer is committed without its quotes. */
  lemma CommitQuoted(st: ParserState, k: string, v: string)
    requires st.currentKey == Some(k) && st.currentValue == [Quote] + v + [Quote]
    ensures CommitPending(st) == st.currentMovieData[k := v]
  {
    TrimSpec([Quote] + v + [Quote]);
    RemoveSurroundingQuotesInverse(v);
  }

  /** After the entry lines of a block, the last key is pending and all earlier entries are in the map. */
  lemma {:induction false} RunEntries(es: seq<Entry>)
    requires es != [] && KeysWithoutColon(es)
    ensures Run(Start, EntryLines(es)) ==
      ParserState(Some(es[|es| - 1].0), [Quote] + es[|es| - 1].1 + [Quote], BlockOf(es[..|es| - 1]), [])
  {
    var n := |es|;
    var lines := EntryLines(es);
    assert lines[..n - 1] == EntryLines(es[..n - 1]);
    var (k, v) := es[n - 1];
    if n == 1 {
      assert es[..0] == [];
      StepEntry(Start, k, v);
    } else {
      var init := es[..n - 1];
      assert KeysWithoutColon(init);
      RunEntries(init);
      var st := Run(Start, EntryLines(init));
      CommitQuoted(st, init[n - 2].0, init[n - 2].1);
      assert init[..n - 2] == es[..n - 2];
      assert BlockOf(init) == BlockOf(es[..n - 2])[init[n - 2].0 := init[n - 2].1];
      StepEntry(st, k, v);
    }
  }

  /**
   * A block of entry lines parses to exactly one record, built from the entries assigned in
   * order; no lines parse to no record.
   */
  lemma ParseEntries(es: seq<Entry>)
    requires KeysWithoutColon(es)
    ensures es == [] ==> Parse(EntryLines(es)) == []
    ensures es != [] ==> Parse(EntryLines(es)) == [CreateMovieFromMap(BlockOf(es))]
  {
    if es != [] {
      RunEntries(es);
      var n := |es|;
      var st := Run(Start, EntryLines(es));
      CommitQuoted(st, es[n - 1].0, es[n - 1].1);
      assert es[n - 1].0 in CommitPending(st);
    }
  }

  /** Within one block, a repeated key keeps the value of its last line. */
  lemma RepeatedKeyLastWins(k: string, first: string, last: string)
    requires ':' !in k
    ensures Parse([EntryLine(k, first), EntryLine(k, last)]) == [CreateMovieFromMap(map[k := last])]
  {
    var es := [(k, first), (k, last)];
    assert es[..1] == [(k, first)];
    assert es[..1][..0] == [];
    assert BlockOf(es[..1]) == map[k := first];
    assert EntryLines(es) == [EntryLine(k, first), EntryLine(k, last)];
    assert BlockOf(es) == map[k := first][k := last];
    assert map[k := first][k := last] == map[k := last];
    ParseEntries(es);
  }

  // ---------------------------------------------------------------------------------------
  // Whole records

  /** The thirteen content fields of a record, in the order of `FieldKeys`. */
  function RecordValues(m: Movie): (vs: seq<Option<string>>)
    ensures |vs| == |FieldKeys|
  {
    [m.title, m.year, m.rated, m.released, m.runtime, m.genre, m.director, m.writer,
     m.actors, m.plot, m.poster, m.imdbRating, m.type_]
  }

  /** The entry of one field: present when the field is non-null. */
  function FieldEntry(key: string, field: Option<string>): seq<Entry> {
    if field.Some? then [(key, field.value)] else []
  }

  /** The entries of the non-null values, each under the key at its position. */
  function PresentEntries(ks: seq<string>, vs: seq<Option<string>>): seq<Entry>
    requires |ks| == |vs|
  {
    if ks == [] then []
    else PresentEntries(ks[..|ks| - 1], vs[..|vs| - 1]) + FieldEntry(ks[|ks| - 1], vs[|vs| - 1])
  }

  /** The present fields of a record, under the keys `createMovieFromMap` reads them from. */
  function MovieEntries(m: Movie): seq<Entry> {
    PresentEntries(FieldKeys, RecordValues(m))
  }

  /** A record as a block of the feed: its field lines and a terminating blank line. */
  function SerializeMovie(m: Movie): seq<string> {
    EntryLines(MovieEntries(m)) + [""]
  }

  /** Records as a feed, one block after another. */
  function SerializeMovies(ms: seq<Movie>): seq<string> {
    if ms == [] then [] else SerializeMovie(ms[0]) + SerializeMovies(ms[1..])
  }

  /** The records with their keys reset to the default. */
  function WithoutIds(ms: seq<Movie>): (r: seq<Movie>)
    ensures |r| == |ms|
  {
    if ms == [] then [] else [WithoutId(ms[0])] + WithoutIds(ms[1..])
  }

  /** No line break in a value: each written field stays one line when the feed is split into lines. */
  predicate NoLineBreak(field: Option<string>) {
    field.Some? ==> '\n' !in field.value && '\r' !in field.value
  }

  /**
   * Every field of the record fits on one line. The feed reaches the parser already split into
   * lines, so this is what makes `SerializeMovie(m)` the lines a reader would return for the
   * written text.
   */
  predicate SingleLineFields(m: Movie) {
    forall i :: 0 <= i < |FieldKeys| ==> NoLineBreak(RecordValues(m)[i])
  }

  /** Assigning the entries of `a` and then those of `b` is the map union, `b` winning. */
  lemma {:induction false} BlockOfAppend(a: seq<Entry>, b: seq<Entry>)
    ensures BlockOf(a + b) == BlockOf(a) + BlockOf(b)
  {
    if b == [] {
      assert a + b == a;
    } else {
      var ab := a + b;
      assert ab[..|ab| - 1] == a + b[..|b| - 1];
      BlockOfAppend(a, b[..|b| - 1]);
    }
  }

  predicate DistinctKeys(ks: seq<string>) {
    forall i, j :: 0 <= i < j < |ks| ==> ks[i] != ks[j]
  }

  /**
   * With distinct keys, the map of the present entries holds exactly the non-null values,
   * each under its own key.
   */
  lemma {:induction false} PresentEntriesBlock(ks: seq<string>, vs: seq<Option<string>>)
    requires |ks| == |vs| && DistinctKeys(ks)
    ensures forall k :: k in BlockOf(PresentEntries(ks, vs)) ==> k in ks
    ensures forall i :: 0 <= i < |ks| ==> Lookup(BlockOf(PresentEntries(ks, vs)), ks[i]) == vs[i]
  {
    if ks != [] {
      var n := |ks|;
      var ks', vs' := ks[..n - 1], vs[..n - 1];
      PresentEntriesBlock(ks', vs');
      BlockOfAppend(PresentEntries(ks', vs'), FieldEntry(ks[n - 1], vs[n - 1]));
      var b := BlockOf(PresentEntries(ks, vs));
      var b' := BlockOf(PresentEntries(ks', vs'));
      forall i | 0 <= i < n ensures Lookup(b, ks[i]) == vs[i] {
        if i < n - 1 {
          assert ks[i] == ks'[i] && vs[i] == vs'[i];
        } else {
          assert ks[n - 1] !in ks';
        }
      }
    }
  }

  lemma FieldKeysFacts()
    ensures DistinctKeys(FieldKeys)
    ensures forall i :: 0 <= i < |FieldKeys| ==> ':' !in FieldKeys[i]
  {
  }

  /** Every entry of a present-entries list carries one of the given keys. */
  lemma {:induction false} PresentEntriesKeys(ks: seq<string>, vs: seq<Option<string>>)
    requires |ks| == |vs|
    ensures forall e :: e in PresentEntries(ks, vs) ==> e.0 in ks
  {
    if ks != [] {
      PresentEntriesKeys(ks[..|ks| - 1], vs[..|vs| - 1]);
    }
  }

  lemma KeysOfMovieEntries(m: Movie)
    ensures KeysWithoutColon(MovieEntries(m))
  {
    FieldKeysFacts();
    PresentEntriesKeys(FieldKeys, RecordValues(m));
    var es := MovieEntries(m);
    forall i | 0 <= i < |es| ensures ':' !in es[i].0 {
      assert es[i] in es;
    }
  }

  /** Looking the keys up in the map of a record's entries gives back each field. */
  lemma BlockOfMovie(m: Movie)
    ensures CreateMovieFromMap(BlockOf(MovieEntries(m))) == WithoutId(m)
  {
    FieldKeysFacts();
    PresentEntriesBlock(FieldKeys, RecordValues(m));
    var b := BlockOf(MovieEntries(m));
    var ks, vs := FieldKeys, RecordValues(m);
    assert Lookup(b, ks[0]) == vs[0] && Lookup(b, ks[1]) == vs[1] && Lookup(b, ks[2]) == vs[2];
    assert Lookup(b, ks[3]) == vs[3] && Lookup(b, ks[4]) == vs[4] && Lookup(b, ks[5]) == vs[5];
    assert Lookup(b, ks[6]) == vs[6] && Lookup(b, ks[7]) == vs[7] && Lookup(b, ks[8]) == vs[8];
    assert Lookup(b, ks[9]) == vs[9] && Lookup(b, ks[10]) == vs[10] && Lookup(b, ks[11]) == vs[11];
    assert Lookup(b, ks[12]) == vs[12];
  }

  /** A record has some field exactly when its entry list is non-empty. */
  lemma {:induction false} PresentEntriesEmpty(ks: seq<string>, vs: seq<Option<string>>)
    requires |ks| == |vs|
    ensures PresentEntries(ks, vs) == [] <==> forall i :: 0 <= i < |vs| ==> vs[i].None?
  {
    if ks != [] {
      PresentEntriesEmpty(ks[..|ks| - 1], vs[..|vs| - 1]);
    }
  }

  /**
   * Round trip of one record: writing a record with at least one field as a block and parsing
   * it back gives that record, its key reset to the default.
   */
  lemma MovieRoundTrip(m: Movie)
    requires HasSomeField(m) && SingleLineFields(m)
    ensures Parse(SerializeMovie(m)) == [WithoutId(m)]
  {
    var es := MovieEntries(m);
    KeysOfMovieEntries(m);
    PresentEntriesEmpty(FieldKeys, RecordValues(m));
    var vs := RecordValues(m);
    assert vs[0] == m.title && vs[1] == m.year && vs[2] == m.rated && vs[3] == m.released;
    assert vs[4] == m.runtime && vs[5] == m.genre && vs[6] == m.director && vs[7] == m.writer;
    assert vs[8] == m.actors && vs[9] == m.plot && vs[10] == m.poster && vs[11] == m.imdbRating;
    assert vs[12] == m.type_;
    assert es != [];
    EndOfInputIsBlankLine(EntryLines(es), "");
    ParseEntries(es);
    BlockOfMovie(m);
  }

  /** A record with no field at all writes an empty block, which parses to no record. */
  lemma EmptyMovieWritesNothing(m: Movie)
    requires !HasSomeField(m)
    ensures Parse(SerializeMovie(m)) == []
  {
    PresentEntriesEmpty(FieldKeys, RecordValues(m));
    assert MovieEntries(m) == [];
    EndOfInputIsBlankLine([], "");
    ParseEmpty();
  }

  /** Round trip of a feed: the records come back in order, each with its key reset. */
  lemma {:induction false} MoviesRoundTrip(ms: seq<Movie>)
    requires forall i :: 0 <= i < |ms| ==> HasSomeField(ms[i]) && SingleLineFields(ms[i])
    ensures Parse(SerializeMovies(ms)) == WithoutIds(ms)
  {
    if ms == [] {
      ParseEmpty();
    } else {
      var es := MovieEntries(ms[0]);
      KeysOfMovieEntries(ms[0]);
      assert SerializeMovies(ms) == EntryLines(es) + [""] + SerializeMovies(ms[1..]);
      BlocksIndependent(EntryLines(es), "", SerializeMovies(ms[1..]));
      MoviesRoundTrip(ms[1..]);
      ParseEntries(es);
      BlockOfMovie(ms[0]);
    }
  }
}
