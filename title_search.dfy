/**
 * The substring search screen: the guards on the key and the term, reading an OMDb `?s=`
 * answer into at most ten results, the search button's enable rule, the poster rule, and the
 * state the screen keeps across a search.
 */
module TitleSearch {
  import opened Outcomes
  import opened Text
  import opened Omdb

  /** One result row: the four members read with `optString(key, null)`. */
  datatype WebSearchResult = WebSearchResult(
    title: Option<string>, year: Option<string>, type_: Option<string>, poster: Option<string>)

  /** At most this many array elements are read. */
  const MaxResults: nat := 10

  const NoResults: string := "No results found"
  const KeyNotSet: string := "API Key not set"
  const EmptyTerm: string := "Search term cannot be empty"
  const SearchFallback: string := "Unknown search error"

  /** One element of the array read into a result: each field is null exactly when its member is missing. */
  function ResultFromJson(obj: JsonObject): (r: WebSearchResult)
    ensures ("Title" in obj <==> r.title.Some?) && ("Title" in obj ==> r.title.value == obj["Title"])
    ensures ("Year" in obj <==> r.year.Some?) && ("Year" in obj ==> r.year.value == obj["Year"])
    ensures ("Type" in obj <==> r.type_.Some?) && ("Type" in obj ==> r.type_.value == obj["Type"])
    ensures ("Poster" in obj <==> r.poster.Some?) && ("Poster" in obj ==> r.poster.value == obj["Poster"])
  {
    WebSearchResult(
      OptStringOrNull(obj, "Title"), OptStringOrNull(obj, "Year"),
      OptStringOrNull(obj, "Type"), OptStringOrNull(obj, "Poster"))
  }

  /** The position of the first element that is not an object, or `|elems|` when all are objects. */
  function FirstNonObject(elems: seq<JsonElement>): (k: nat)
    ensures k <= |elems|
    ensures forall i :: 0 <= i < k ==> elems[i].ObjectElement?
    ensures k < |elems| ==> elems[k].OtherElement?
  {
    if elems == [] || elems[0].OtherElement? then 0 else 1 + FirstNonObject(elems[1..])
  }

  /**
   * The results of reading `elems` in order: every element an object gives one result each,
   * in order; otherwise the exception `getJSONObject` throws at the first element that is not.
   */
  function Collect(elems: seq<JsonElement>): (r: Result<seq<WebSearchResult>>)
    ensures r.Success? <==> FirstNonObject(elems) == |elems|
    ensures r.Success? ==> |r.value| == |elems|
    ensures r.Success? ==> forall i :: 0 <= i < |elems| ==> r.value[i] == ResultFromJson(elems[i].obj)
    ensures r.Failure? ==> r.error == elems[FirstNonObject(elems)].error
  {
    if elems == [] then Success([])
    else
      match elems[0]
      case OtherElement(e) => Failure(e)
      case ObjectElement(obj) =>
        match Collect(elems[1..])
        case Success(rest) => Success([ResultFromJson(obj)] + rest)
        case Failure(e) => Failure(e)
  }

  /** The array elements the loop reads: the first `min(n, 10)`. */
  function Capped(elems: seq<JsonElement>): (c: seq<JsonElement>)
    ensures |c| == if |elems| < MaxResults then |elems| else MaxResults
    ensures c == elems[..|c|]
  {
    if |elems| < MaxResults then elems else elems[..MaxResults]
  }

  /** The results of an accepted answer: none without a `Search` array, else its capped elements. */
  function ResultsOf(p: Payload): (r: Result<seq<WebSearchResult>>)
    ensures r.Success? ==> |r.value| <= MaxResults
    ensures r.Success? && p.search.Some? && |p.search.value| >= MaxResults ==> |r.value| == MaxResults
  {
    match p.search
    case None => Success([])
    case Some(elems) => Collect(Capped(elems))
  }

  /**
   * `searchMoviesBySubstring` once the request has run: the key guard first, then the term
   * guard, then the shared checks with "No results found" as the default, then the results.
   */
  function SearchOutcome(key: string, term: string, ex: Exchange): (r: Result<seq<WebSearchResult>>)
    ensures r.Success? ==> key != PlaceholderKey && !IsBlank(key) && !IsBlank(term) && Accepted(ex)
    ensures r.Success? ==> |r.value| <= MaxResults
  {
    if key == PlaceholderKey || IsBlank(key) then Failure(Raise(KeyNotSet))
    else if IsBlank(term) then Failure(Raise(EmptyTerm))
    else
      match Envelope(ex, NoResults)
      case Failure(e) => Failure(e)
      case Success(p) => ResultsOf(p)
  }

  /** The guards come before any request: their failures do not depend on the answer. */
  lemma GuardsFirst(key: string, term: string, ex: Exchange)
    ensures key == PlaceholderKey || IsBlank(key) ==> SearchOutcome(key, term, ex) == Failure(Raise(KeyNotSet))
    ensures key != PlaceholderKey && !IsBlank(key) && IsBlank(term) ==>
      SearchOutcome(key, term, ex) == Failure(Raise(EmptyTerm))
  {
  }

  /** A success holds at most ten results. */
  lemma AtMostTen(key: string, term: string, ex: Exchange)
    ensures var r := SearchOutcome(key, term, ex); r.Success? ==> |r.value| <= MaxResults
  {
  }

  /**
   * A success holds the first `min(n, 10)` array elements' results, in array order; with no
   * `Search` array it is empty.
   */
  lemma SuccessIsCappedPrefix(key: string, term: string, ex: Exchange)
    requires SearchOutcome(key, term, ex).Success?
    ensures Accepted(ex)
    ensures var r := SearchOutcome(key, term, ex).value; var p := ex.body.payload;
      && (p.search.None? ==> r == [])
      && (p.search.Some? ==>
          && |r| == (if |p.search.value| < MaxResults then |p.search.value| else MaxResults)
          && forall i :: 0 <= i < |r| ==> p.search.value[i].ObjectElement? && r[i] == ResultFromJson(p.search.value[i].obj))
  {
    EnvelopeFailures(ex, NoResults);
  }

  /** Elements after the tenth are never read: whatever follows, even a non-object, the results are the same. */
  lemma TailIgnored(obj: JsonObject, elems: seq<JsonElement>, extra: seq<JsonElement>)
    requires |elems| >= MaxResults
    ensures ResultsOf(Payload(obj, Some(elems + extra))) == ResultsOf(Payload(obj, Some(elems)))
  {
    assert (elems + extra)[..MaxResults] == elems[..MaxResults];
  }

  /** A reported failure without `Error` text says "No results found". */
  lemma NoResultsDefault(key: string, term: string, obj: JsonObject, search: Option<seq<JsonElement>>)
    requires key != PlaceholderKey && !IsBlank(key) && !IsBlank(term)
    requires ReportsFailure(obj) && "Error" !in obj
    ensures SearchOutcome(key, term, Answered(HttpOk, Parsed(Payload(obj, search)))) == Failure(Raise(NoResults))
  {
  }

  /** A non-200 status gives "OMDb API error: " and the code, once the guards pass. */
  lemma StatusFailure(key: string, term: string, code: int, body: Body)
    requires key != PlaceholderKey && !IsBlank(key) && !IsBlank(term) && code != HttpOk
    ensures SearchOutcome(key, term, Answered(code, body)) == Failure(StatusError(code))
  {
  }

  /** The result loop: appends one result per element read, and stops at the first non-object. */
  method BuildResults(search: Option<seq<JsonElement>>) returns (r: Result<seq<WebSearchResult>>)
    ensures r == ResultsOf(Payload(map[], search))
  {
    var results: seq<WebSearchResult> := [];
    if search.None? {
      return Success(results);
    }
    var elems := search.value;
    var n := if |elems| < MaxResults then |elems| else MaxResults;
    assert Capped(elems) == elems[..n] == elems[0..n];
    if Collect(elems[..n]).Success? {
      assert [] + Collect(elems[..n]).value == Collect(elems[..n]).value;
    }
    for i := 0 to n
      invariant Collect(elems[..n]) == Prefixed(results, Collect(elems[i..n]))
    {
      var tail := elems[i..n];
      assert tail[0] == elems[i] && tail[1..] == elems[i + 1..n];
      match elems[i]
      case OtherElement(e) =>
        return Failure(e);
      case ObjectElement(obj) =>
        var x := ResultFromJson(obj);
        PrefixedTwice(results, [x], Collect(elems[i + 1..n]));
        results := results + [x];
    }
    assert elems[n..n] == [];
    assert results + [] == results;
    r := Success(results);
  }

  /** `done` followed by the outcome of reading the rest; a failure stays a failure. */
  function Prefixed(done: seq<WebSearchResult>, r: Result<seq<WebSearchResult>>): Result<seq<WebSearchResult>> {
    match r
    case Success(rest) => Success(done + rest)
    case Failure(e) => Failure(e)
  }

  lemma PrefixedTwice(a: seq<WebSearchResult>, b: seq<WebSearchResult>, r: Result<seq<WebSearchResult>>)
    ensures Prefixed(a, Prefixed(b, r)) == Prefixed(a + b, r)
  {
    if r.Success? {
      assert a + (b + r.value) == (a + b) + r.value;
    }
  }

  /** `searchMoviesBySubstring`: the guards, then the shared checks, then the result loop. */
  method SearchMoviesBySubstring(searchTerm: string, key: string, ex: Exchange) returns (r: Result<seq<WebSearchResult>>)
    ensures r == SearchOutcome(key, searchTerm, ex)
  {
    if key == PlaceholderKey || IsBlank(key) {
      return Failure(Raise(KeyNotSet));
    }
    if IsBlank(searchTerm) {
      return Failure(Raise(EmptyTerm));
    }
    var checked := Envelope(ex, NoResults);
    if checked.Failure? {
      return Failure(checked.error);
    }
    r := BuildResults(checked.value.search);
  }

  /** The search button's `enabled` rule: not loading, a real key, and text that is not empty once trimmed. */
  function SearchButtonEnabled(isLoading: bool, searchText: string, apiKey: string): (enabled: bool)
    ensures enabled <==> !isLoading && apiKey != PlaceholderKey && Trim(searchText) != []
  {
    TrimSpec(searchText);
    !isLoading && !IsBlank(searchText) && apiKey != PlaceholderKey
  }

  /**
   * A click on the enabled button gets past the term guard, whatever the term: with a non-blank
   * key its outcome is that of the shared checks and the result loop alone. The button does not
   * test for a blank key, which the key guard then rejects.
   */
  lemma EnabledSearchPassesGuards(searchText: string, apiKey: string, ex: Exchange)
    requires SearchButtonEnabled(false, searchText, apiKey)
    ensures !IsBlank(apiKey) ==>
      var env := Envelope(ex, NoResults);
      SearchOutcome(apiKey, searchText, ex) == if env.Failure? then Failure(env.error) else ResultsOf(env.value)
    ensures IsBlank(apiKey) ==> SearchOutcome(apiKey, searchText, ex) == Failure(Raise(KeyNotSet))
  {
  }

  /** The poster rule: a download is attempted only for a non-null, non-empty URL other than `"N/A"`. */
  function ShouldLoadPoster(posterUrl: Option<string>): (load: bool)
    ensures load ==> posterUrl.Some? && |posterUrl.value| > 0
    ensures posterUrl == Some("N/A") ==> !load
  {
    posterUrl.Some? && posterUrl.value != "" && posterUrl.value != "N/A"
  }

  /** For a result read from the array: a download exactly when `Poster` is present, non-empty and not `"N/A"`. */
  lemma PosterOfResult(obj: JsonObject)
    ensures ShouldLoadPoster(ResultFromJson(obj).poster) <==>
      "Poster" in obj && obj["Poster"] != "" && obj["Poster"] != "N/A"
  {
  }

  /** What the screen below the search row shows, by the first condition that holds. */
  datatype View =
    | Spinner
    | ErrorText(text: string)
    | NothingFound(term: string)
    | ResultList(results: seq<WebSearchResult>)

  /** The state of `SearchTitleWebScreen`. */
  class SearchTitleWebScreen {
    const apiKey: string
    var searchText: string
    var searchResults: seq<WebSearchResult>
    var isLoading: bool
    var errorMessage: Option<string>
    var searchPerformed: bool

    constructor (apiKey: string)
      ensures this.apiKey == apiKey && searchText == "" && searchResults == []
      ensures !isLoading && errorMessage.None? && !searchPerformed
    {
      this.apiKey := apiKey;
      searchText := "";
      searchResults := [];
      isLoading := false;
      errorMessage := None;
      searchPerformed := false;
    }

    method EditText(text: string)
      modifies this`searchText
      ensures searchText == text
    {
      searchText := text;
    }

    /** The `when` block: the spinner, else the error, else the empty message, else the list; or nothing. */
    function Shown(): (v: Option<View>)
      reads this
      ensures v.None? <==> !isLoading && errorMessage.None? && !searchPerformed && searchResults == []
    {
      if isLoading then Some(Spinner)
      else if errorMessage.Some? then Some(ErrorText("Error: " + errorMessage.value))
      else if searchPerformed && searchResults == [] then Some(NothingFound(searchText))
      else if searchResults != [] then Some(ResultList(searchResults))
      else None
    }

    /** The button's `onClick`, possible only while the button is enabled: earlier output is cleared. */
    method Click() returns (term: string)
      requires SearchButtonEnabled(isLoading, searchText, apiKey)
      modifies this`isLoading, this`searchPerformed, this`errorMessage, this`searchResults
      ensures term == searchText
      ensures isLoading && searchPerformed && errorMessage.None? && searchResults == []
      ensures Shown() == Some(Spinner)
    {
      isLoading := true;
      searchPerformed := true;
      errorMessage := None;
      searchResults := [];
      term := searchText;
    }

    /** The end of the launched search: the results, or the failure's message (or "Unknown search error"). */
    method Complete(result: Result<seq<WebSearchResult>>)
      modifies this`isLoading, this`errorMessage, this`searchResults
      ensures !isLoading
      ensures result.Success? ==> searchResults == result.value && errorMessage == old(errorMessage)
      ensures result.Failure? ==>
        errorMessage == Some(MessageOr(result.error, SearchFallback)) && searchResults == old(searchResults)
    {
      isLoading := false;
      match result
      case Success(rs) => searchResults := rs;
      case Failure(e) => errorMessage := Some(MessageOr(e, SearchFallback));
    }

    /**
     * A click and its search against one answer: the screen shows the error, the empty message
     * or the list of at most ten results, according to the outcome.
     */
    method Search(answer: Exchange) returns (outcome: Result<seq<WebSearchResult>>)
      requires SearchButtonEnabled(isLoading, searchText, apiKey)
      modifies this`isLoading, this`searchPerformed, this`errorMessage, this`searchResults
      ensures outcome == SearchOutcome(apiKey, searchText, answer)
      ensures outcome.Failure? ==> Shown() == Some(ErrorText("Error: " + MessageOr(outcome.error, SearchFallback)))
      ensures outcome.Success? && outcome.value == [] ==> Shown() == Some(NothingFound(searchText))
      ensures outcome.Success? && outcome.value != [] ==>
        Shown() == Some(ResultList(outcome.value)) && |outcome.value| <= MaxResults
    {
      var term := Click();
      outcome := SearchMoviesBySubstring(term, apiKey, answer);
      AtMostTen(apiKey, term, answer);
      Complete(outcome);
    }
  }
}
