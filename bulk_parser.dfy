/**
 * The bulk movie-feed parser of `MainActivity.fetchAndParseMovies` and its field mapper
 * `createMovieFromMap`.
 *
 * The feed is a sequence of text lines. Lines are grouped into blocks separated by blank
 * lines; inside a block, a line holding a colon starts a field (`"Key": value`) and a line
 * without one continues the current field's value. Each non-empty block becomes one `Movie`.
 *
 * The parser's state is the triple the source keeps in local variables (the current key,
 * the value buffer and the block's field map) plus the list of records built so far.
 * `Step` is one iteration of the source's `while` loop, `Run` folds it over a prefix of the
 * input, and `Parse` adds the final flush at end of input. `FetchAndParseMovies` is the
 * loop itself, proved to compute `Parse`.
 */
module BulkParser {
  import opened Outcomes
  import opened Text
  import opened Movies

  /** The per-block `Map<String, String>` of field names to accumulated values. */
  type FieldBlock = map<string, string>

  /** `data[key]` on a Kotlin map: null when the key is absent. */
  function Lookup(data: FieldBlock, key: string): (r: Option<string>)
    ensures r.Some? <==> key in data
    ensures r.Some? ==> r.value == data[key]
  {
    if key in data then Some(data[key]) else None
  }

  /**
   * `createMovieFromMap`: each of the thirteen content fields is the value of its exact,
   * case-sensitive key, null when that key is absent; the key is left at its default.
   */
  function CreateMovieFromMap(data: FieldBlock): (m: Movie)
    ensures m.id == DefaultId
  {
    NewMovie(
      Lookup(data, "Title"), Lookup(data, "Year"), Lookup(data, "Rated"), Lookup(data, "Released"),
      Lookup(data, "Runtime"), Lookup(data, "Genre"), Lookup(data, "Director"), Lookup(data, "Writer"),
      Lookup(data, "Actors"), Lookup(data, "Plot"), Lookup(data, "Poster"), Lookup(data, "imdbRating"),
      Lookup(data, "Type"))
  }

  /** The thirteen keys `createMovieFromMap` reads, in the order it reads them. */
  const FieldKeys: seq<string> :=
    ["Title", "Year", "Rated", "Released", "Runtime", "Genre", "Director", "Writer",
     "Actors", "Plot", "Poster", "imdbRating", "Type"]

  /** Keys outside the recognised thirteen are ignored: adding or changing one never changes the record. */
  lemma UnrecognisedKeysIgnored(data: FieldBlock, k: string, v: string)
    requires k !in FieldKeys
    ensures CreateMovieFromMap(data[k := v]) == CreateMovieFromMap(data)
  {
    var d := data[k := v];
    assert k != "Title" && k != "Year" && k != "Rated" && k != "Released" && k != "Runtime";
    assert k != "Genre" && k != "Director" && k != "Writer" && k != "Actors" && k != "Plot";
    assert k != "Poster" && k != "imdbRating" && k != "Type";
  }

  /** The loop's local state: `currentKey`, `currentValue`, `currentMovieData` and the output list `movies`. */
  datatype ParserState = ParserState(
    currentKey: Option<string>,
    currentValue: string,
    currentMovieData: FieldBlock,
    movies: seq<Movie>)

  /** The state before the first line. */
  const Start: ParserState := ParserState(None, "", map[], [])

  /** The value a buffer is committed as: trimmed, then one surrounding pair of quotes removed. */
  function CommittedValue(buffer: string): string {
    RemoveSurroundingQuotes(Trim(buffer))
  }

  /** Committing the pending field, as the source does before a new key and at the end of a block. */
  function CommitPending(st: ParserState): (data: FieldBlock)
    ensures st.currentKey.None? || st.currentValue == [] ==> data == st.currentMovieData
    ensures forall k :: k in st.currentMovieData ==> k in data
  {
    if st.currentKey.Some? && st.currentValue != [] then
      st.currentMovieData[st.currentKey.value := CommittedValue(st.currentValue)]
    else
      st.currentMovieData
  }

  /**
   * A field is committed only when a key is current and its buffer is non-empty; the key is then
   * (re)assigned the buffer trimmed with one quote pair removed, so a repeated key keeps its last
   * value, and every other key keeps its value.
   */
  lemma CommitRule(st: ParserState)
    ensures st.currentKey.None? || st.currentValue == [] ==> CommitPending(st) == st.currentMovieData
    ensures st.currentKey.Some? && st.currentValue != [] ==>
      && CommitPending(st).Keys == st.currentMovieData.Keys + {st.currentKey.value}
      && CommitPending(st)[st.currentKey.value] == RemoveSurroundingQuotes(Trim(st.currentValue))
      && forall k :: k in st.currentMovieData && k != st.currentKey.value ==>
           CommitPending(st)[k] == st.currentMovieData[k]
  {
  }

  /**
   * The end of a block (a blank line, or the end of input): the pending field is committed,
   * the block becomes one record when its map is non-empty, and key, buffer and map are cleared.
   */
  function EndBlock(st: ParserState): (r: ParserState)
    ensures r.currentKey.None? && r.currentValue == [] && r.currentMovieData == map[]
    ensures r.movies == st.movies <==> CommitPending(st) == map[]
    ensures r.movies != st.movies ==> r.movies == st.movies + [CreateMovieFromMap(CommitPending(st))]
  {
    var data := CommitPending(st);
    var movies := if data != map[] then st.movies + [CreateMovieFromMap(data)] else st.movies;
    ParserState(None, "", map[], movies)
  }

  /**
   * One iteration of the reading loop, on one raw line. Only a line that is empty once trimmed
   * can emit a record, and it leaves no key current and an empty field map.
   */
  function Step(st: ParserState, line: string): (r: ParserState)
    ensures Trim(line) != [] ==> r.movies == st.movies
    ensures Trim(line) == [] ==> r.currentKey.None? && r.currentMovieData == map[]
  {
    var t := Trim(line);
    if t == [] then EndBlock(st)
    else
      var c := IndexOf(t, ':');
      if c != -1 then
        ParserState(Some(RemoveSurroundingQuotes(Trim(t[..c]))), Trim(t[c + 1..]), CommitPending(st), st.movies)
      else if st.currentKey.Some? then
        st.(currentValue := if st.currentValue != [] then st.currentValue + " " + t else t)
      else
        st
  }

  /** The state after reading `lines` from `st`. */
  function Run(st: ParserState, lines: seq<string>): ParserState
  {
    if lines == [] then st else Step(Run(st, lines[..|lines| - 1]), lines[|lines| - 1])
  }

  /**
   * The records parsed from a whole feed: every line read, then the final block flushed. Each
   * carries the default key, so that the store assigns it a fresh one.
   */
  function Parse(lines: seq<string>): (ms: seq<Movie>)
    ensures AllDefaultIds(ms)
  {
    RunKeepsDefaultIds(lines);
    EndBlock(Run(Start, lines)).movies
  }

  /** What the network delivered: the lines read, and whether opening or reading the stream threw. */
  datatype Feed = Feed(lines: seq<string>, readFailed: bool)

  /**
   * `fetchAndParseMovies` once the stream is open: the line loop, the flush at end of input,
   * and the handler that turns any fetch or read exception into an empty result, discarding
   * whatever was already parsed.
   */
  method FetchAndParseMovies(feed: Feed) returns (movies: seq<Movie>)
    ensures feed.readFailed ==> movies == []
    ensures !feed.readFailed ==> movies == Parse(feed.lines)
  {
    var currentKey, currentValue, currentMovieData, read := ReadLines(feed.lines);
    movies := FlushBlock(currentKey, currentValue, currentMovieData, read);
    if feed.readFailed {
      movies := [];
    }
  }

  /**
   * The reading loop of `fetchAndParseMovies`: every line in order, over the loop's local
   * variables, ending in the state `Run` describes.
   */
  method ReadLines(lines: seq<string>)
    returns (currentKey: Option<string>, currentValue: string, currentMovieData: FieldBlock, movies: seq<Movie>)
    ensures ParserState(currentKey, currentValue, currentMovieData, movies) == Run(Start, lines)
  {
    movies := [];
    currentMovieData := map[];
    currentKey := None;
    currentValue := "";
    var i := 0;
    assert lines[..0] == [];
    while i < |lines|
      invariant 0 <= i <= |lines|
      invariant ParserState(currentKey, currentValue, currentMovieData, movies) == Run(Start, lines[..i])
    {
      assert Run(Start, lines[..i + 1]) == Step(Run(Start, lines[..i]), lines[i]) by {
        assert lines[..i + 1] == lines[..i] + [lines[i]];
        RunSnoc(Start, lines[..i], lines[i]);
      }
      currentKey, currentValue, currentMovieData, movies := ReadLine(currentKey, currentValue, currentMovieData, movies, lines[i]);
      i := i + 1;
    }
    assert lines[..i] == lines;
  }

  /**
   * The body of the reading loop on one raw line, over the loop's local variables: a blank line
   * flushes the pending field and block, a line with a colon commits the pending field and starts
   * a new key, and any other line extends the current value when a key is current.
   */
  method ReadLine(key: Option<string>, value: string, data: FieldBlock, movies: seq<Movie>, line: string)
    returns (currentKey: Option<string>, currentValue: string, currentMovieData: FieldBlock, out: seq<Movie>)
    ensures ParserState(currentKey, currentValue, currentMovieData, out) == Step(ParserState(key, value, data, movies), line)
  {
    ghost var before := ParserState(key, value, data, movies);
    currentKey, currentValue, currentMovieData, out := key, value, data, movies;
    var trimmedLine := Trim(line);
    if trimmedLine == [] {
      out := FlushBlock(currentKey, currentValue, currentMovieData, out);
      currentMovieData := map[];
      currentKey := None;
      currentValue := "";
    } else {
      var colonIndex := IndexOf(trimmedLine, ':');
      if colonIndex != -1 {
        if currentKey.Some? && currentValue != [] {
          currentMovieData := currentMovieData[currentKey.value := RemoveSurroundingQuotes(Trim(currentValue))];
        }
        currentKey := Some(RemoveSurroundingQuotes(Trim(trimmedLine[..colonIndex])));
        currentValue := Trim(trimmedLine[colonIndex + 1..]);
        assert currentMovieData == CommitPending(before);
      } else if currentKey.Some? {
        if currentValue != [] {
          currentValue := currentValue + " ";
        }
        currentValue := currentValue + trimmedLine;
      }
    }
  }

  /**
   * The flush the source performs on a blank line and again at the end of input: the pending
   * field is committed, and a non-empty field map becomes one more record.
   */
  method FlushBlock(key: Option<string>, value: string, data: FieldBlock, movies: seq<Movie>) returns (out: seq<Movie>)
    ensures out == EndBlock(ParserState(key, value, data, movies)).movies
  {
    var currentMovieData := data;
    if key.Some? && value != [] {
      currentMovieData := currentMovieData[key.value := RemoveSurroundingQuotes(Trim(value))];
    }
    out := movies;
    if currentMovieData != map[] {
      var movie := CreateMovieFromMap(currentMovieData);
      out := out + [movie];
    }
  }

  // ---------------------------------------------------------------------------------------
  // Line-level rules

  /** A blank line (empty once trimmed) ends the block exactly as the end of input does. */
  lemma BlankLineEndsBlock(st: ParserState, line: string)
    requires IsBlank(line)
    ensures Step(st, line) == EndBlock(st)
    ensures Step(st, line).currentMovieData == map[] && Step(st, line).currentKey.None?
  {
    TrimSpec(line);
  }

  /**
   * A non-blank line whose trimmed form is `k + ":" + v`, with no colon in `k`, commits the
   * pending field and starts key `k` (trimmed, one quote pair removed) with buffer `v` trimmed:
   * any later colons stay inside the value.
   */
  lemma {:induction false} ColonLineStartsField(st: ParserState, line: string, k: string, v: string)
    requires Trim(line) == k + ":" + v
    requires ':' !in k
    ensures Step(st, line) == ParserState(Some(RemoveSurroundingQuotes(Trim(k))), Trim(v), CommitPending(st), st.movies)
  {
    var t := Trim(line);
    IndexOfAppend(k, ":" + v, ':');
    assert k + ":" + v == k + (":" + v);
    assert IndexOf(t, ':') == |k|;
    assert t[..|k|] == k;
    assert t[|k| + 1..] == v;
  }

  /**
   * A non-blank line without a colon continues the current value, joined by exactly one space
   * when the buffer already holds text; with no current key it is skipped and nothing changes.
   */
  lemma ContinuationLine(st: ParserState, line: string)
    requires !IsBlank(line) && ':' !in Trim(line)
    ensures st.currentKey.None? ==> Step(st, line) == st
    ensures st.currentKey.Some? && st.currentValue != [] ==>
      Step(st, line) == st.(currentValue := st.currentValue + " " + Trim(line))
    ensures st.currentKey.Some? && st.currentValue == [] ==>
      Step(st, line) == st.(currentValue := Trim(line))
  {
    TrimSpec(line);
    IndexOfSpec(Trim(line), ':');
  }

  // ---------------------------------------------------------------------------------------
  // Block structure

  /** Reading one more line is one more step. */
  lemma RunSnoc(st: ParserState, init: seq<string>, line: string)
    ensures Run(st, init + [line]) == Step(Run(st, init), line)
  {
    var s := init + [line];
    assert s[..|s| - 1] == init && s[|s| - 1] == line;
  }

  /** Reading `a` then `b` is reading `a + b`. */
  lemma {:induction false} RunAppend(st: ParserState, a: seq<string>, b: seq<string>)
    ensures Run(st, a + b) == Run(Run(st, a), b)
  {
    if b == [] {
      assert a + b == a;
    } else {
      var init, last := b[..|b| - 1], b[|b| - 1];
      assert a + b == (a + init) + [last];
      assert b == init + [last];
      RunAppend(st, a, init);
      RunSnoc(st, a + init, last);
      RunSnoc(Run(st, a), init, last);
    }
  }

  /** Flushing a block never inspects the records already emitted. */
  lemma EndBlockKeepsOutput(st: ParserState, o: seq<Movie>)
    ensures EndBlock(st.(movies := o + st.movies)) == EndBlock(st).(movies := o + EndBlock(st).movies)
  {
    var st' := st.(movies := o + st.movies);
    assert CommitPending(st') == CommitPending(st);
    var data := CommitPending(st);
    if data != map[] {
      assert o + (st.movies + [CreateMovieFromMap(data)]) == (o + st.movies) + [CreateMovieFromMap(data)];
    }
  }

  /** One step never inspects the records already emitted. */
  lemma StepKeepsOutput(st: ParserState, o: seq<Movie>, line: string)
    ensures Step(st.(movies := o + st.movies), line) == Step(st, line).(movies := o + Step(st, line).movies)
  {
    var st' := st.(movies := o + st.movies);
    assert CommitPending(st') == CommitPending(st);
    if Trim(line) == [] {
      EndBlockKeepsOutput(st, o);
    }
  }

  /** Records already emitted are never inspected again: running from a state with more output only prefixes it. */
  lemma {:induction false} RunKeepsOutput(st: ParserState, o: seq<Movie>, lines: seq<string>)
    ensures Run(st.(movies := o + st.movies), lines) == Run(st, lines).(movies := o + Run(st, lines).movies)
  {
    if lines != [] {
      var init, last := lines[..|lines| - 1], lines[|lines| - 1];
      RunKeepsOutput(st, o, init);
      RunSnoc(st.(movies := o + st.movies), init, last);
      RunSnoc(st, init, last);
      assert init + [last] == lines;
      StepKeepsOutput(Run(st, init), o, last);
    }
  }

  /** Reading only appends: emitted records are never retracted or reordered, and each line emits at most one. */
  lemma {:induction false} RunOnlyAppends(st: ParserState, lines: seq<string>)
    ensures st.movies <= Run(st, lines).movies
    ensures |Run(st, lines).movies| <= |st.movies| + |lines|
  {
    if lines != [] {
      var init := lines[..|lines| - 1];
      RunOnlyAppends(st, init);
      var prev := Run(st, init);
      var next := Step(prev, lines[|lines| - 1]);
      assert next.movies == prev.movies || next.movies == prev.movies + [CreateMovieFromMap(CommitPending(prev))];
    }
  }

  /**
   * Blocks are parsed independently and in order: the records of `a`, a blank line and `b`
   * are the records of `a` followed by the records of `b`.
   */
  lemma BlocksIndependent(a: seq<string>, blank: string, b: seq<string>)
    requires IsBlank(blank)
    ensures Parse(a + [blank] + b) == Parse(a) + Parse(b)
  {
    RunSnoc(Start, a, blank);
    BlankLineEndsBlock(Run(Start, a), blank);
    assert Parse(a) + [] == Parse(a);
    var mid := Run(Start, a + [blank]);
    assert mid == Start.(movies := Parse(a) + Start.movies);
    RunAppend(Start, a + [blank], b);
    RunKeepsOutput(Start, Parse(a), b);
    EndBlockKeepsOutput(Run(Start, b), Parse(a));
  }

  /** The end of input flushes the pending field and block exactly as one more blank line would. */
  lemma EndOfInputIsBlankLine(lines: seq<string>, blank: string)
    requires IsBlank(blank)
    ensures Parse(lines + [blank]) == Parse(lines)
  {
    BlocksIndependent(lines, blank, []);
    assert lines + [blank] + [] == lines + [blank];
  }

  /** Nothing is parsed from no input. */
  lemma ParseEmpty()
    ensures Parse([]) == []
  {
  }

  /** A blank line right after another adds nothing: consecutive blank lines produce no record. */
  lemma ConsecutiveBlankLines(a: seq<string>, blank1: string, blank2: string, b: seq<string>)
    requires IsBlank(blank1) && IsBlank(blank2)
    ensures Parse(a + [blank1, blank2] + b) == Parse(a + [blank1] + b)
  {
    ParseEmpty();
    assert a + [blank1, blank2] + b == a + [blank1] + ([blank2] + b);
    assert [blank2] + b == [] + [blank2] + b;
    calc {
      Parse(a + [blank1, blank2] + b);
      { BlocksIndependent(a, blank1, [blank2] + b); }
      Parse(a) + Parse([blank2] + b);
      { BlocksIndependent([], blank2, b); }
      Parse(a) + (Parse([]) + Parse(b));
      { assert Parse([]) + Parse(b) == Parse(b); }
      Parse(a) + Parse(b);
      { BlocksIndependent(a, blank1, b); }
      Parse(a + [blank1] + b);
    }
  }

  /** A feed of blank lines only, however many, yields no record. */
  lemma {:induction false} BlankLinesOnly(lines: seq<string>)
    requires forall i :: 0 <= i < |lines| ==> IsBlank(lines[i])
    ensures Parse(lines) == []
  {
    if lines == [] {
      ParseEmpty();
    } else {
      var init, last := lines[..|lines| - 1], lines[|lines| - 1];
      assert lines == init + [last];
      forall i | 0 <= i < |init|
        ensures IsBlank(init[i])
      {
        assert init[i] == lines[i];
      }
      BlankLinesOnly(init);
      EndOfInputIsBlankLine(init, last);
    }
  }

  predicate AllDefaultIds(ms: seq<Movie>) {
    forall i :: 0 <= i < |ms| ==> ms[i].id == DefaultId
  }

  /** Every record emitted while reading carries the default key. */
  lemma {:induction false} RunKeepsDefaultIds(lines: seq<string>)
    ensures AllDefaultIds(Run(Start, lines).movies)
  {
    if lines != [] {
      RunKeepsDefaultIds(lines[..|lines| - 1]);
    }
  }
}
