/**
 * The single-title lookup screen: reading an OMDb `?t=` answer into a `Movie`, saving a movie,
 * and the state the screen keeps across a search.
 */
module TitleLookup {
  import opened Outcomes
  import opened Text
  import opened Movies
  import opened Omdb
  import BulkParser
  import MovieStore

  /** The default when the server reports a failure without an `Error` member. */
  const MovieNotFound: string := "Movie not found"

  /** The record built from an accepted answer: each field read with `optString(key, null)`. */
  function MovieFromJson(obj: JsonObject): (m: Movie)
    ensures m.id == DefaultId
  {
    NewMovie(
      OptStringOrNull(obj, "Title"), OptStringOrNull(obj, "Year"), OptStringOrNull(obj, "Rated"),
      OptStringOrNull(obj, "Released"), OptStringOrNull(obj, "Runtime"), OptStringOrNull(obj, "Genre"),
      OptStringOrNull(obj, "Director"), OptStringOrNull(obj, "Writer"), OptStringOrNull(obj, "Actors"),
      OptStringOrNull(obj, "Plot"), OptStringOrNull(obj, "Poster"), OptStringOrNull(obj, "imdbRating"),
      OptStringOrNull(obj, "Type"))
  }

  /**
   * The API mapper reads the same keys as the bulk feed's mapper: an object whose members are
   * the fields of a feed block gives the same record either way.
   */
  lemma ApiAndFeedMappersAgree(obj: JsonObject)
    ensures MovieFromJson(obj) == BulkParser.CreateMovieFromMap(obj)
  {
  }

  /**
   * `fetchMovieFromApi` once the request has run: success exactly when the answer is accepted,
   * with the record read from its members; otherwise the failure the shared checks give, with
   * `"Movie not found"` when the server gives no `Error` text.
   */
  function FetchMovieFromApi(ex: Exchange): (r: Result<Movie>)
    ensures r.Success? <==> Accepted(ex)
    ensures r.Success? ==> r.value == MovieFromJson(ex.body.payload.obj) && r.value.id == DefaultId
    ensures ex.Threw? ==> r == Failure(ex.error)
    ensures ex.Answered? && ex.code != HttpOk ==> r == Failure(StatusError(ex.code))
    ensures ex.Answered? && ex.code == HttpOk && ex.body.Malformed? ==> r == Failure(ex.body.error)
    ensures ex.Answered? && ex.code == HttpOk && ex.body.Parsed? && ReportsFailure(ex.body.payload.obj) ==>
      r.Failure? && r.error.message == Some(OptStringOr(ex.body.payload.obj, "Error", MovieNotFound))
  {
    EnvelopeFailures(ex, MovieNotFound);
    match Envelope(ex, MovieNotFound)
    case Success(p) => Success(MovieFromJson(p.obj))
    case Failure(e) => Failure(e)
  }

  /** A missing member gives a null field and a present one its text; `id` keeps its default. */
  lemma FetchedFieldsByKey(ex: Exchange)
    requires Accepted(ex)
    ensures var obj := ex.body.payload.obj; var m := FetchMovieFromApi(ex).value;
      && ("Title" in obj <==> m.title.Some?) && ("Title" in obj ==> m.title.value == obj["Title"])
      && ("Actors" in obj <==> m.actors.Some?) && ("Actors" in obj ==> m.actors.value == obj["Actors"])
      && ("Type" in obj <==> m.type_.Some?) && ("Type" in obj ==> m.type_.value == obj["Type"])
      && m == BulkParser.CreateMovieFromMap(obj)
  {
    ApiAndFeedMappersAgree(ex.body.payload.obj);
  }

  /** A reported failure without `Error` text says "Movie not found". */
  lemma NotFoundDefault(obj: JsonObject)
    requires ReportsFailure(obj) && "Error" !in obj
    ensures FetchMovieFromApi(Answered(HttpOk, Parsed(Payload(obj, None)))) == Failure(Raise(MovieNotFound))
  {
  }

  /** `saveMovieToDb`: true exactly when the insert completes; a failed insert leaves the table as it was. */
  method SaveMovieToDb(dao: MovieStore.MovieDao, movie: Movie, insertThrows: bool) returns (saved: bool)
    requires dao.Valid()
    modifies dao
    ensures dao.Valid()
    ensures saved == !insertThrows
    ensures saved ==> dao.State() == MovieStore.Insert(old(dao.State()), movie)
    ensures !saved ==> dao.State() == old(dao.State())
  {
    if insertThrows {
      saved := false;
    } else {
      dao.InsertMovie(movie);
      saved := true;
    }
  }

  const ApiKeyMessage: string := "Please set your OMDb API key."
  const EmptyTitleMessage: string := "Please enter a movie title."
  const FetchFallback: string := "Unknown error fetching movie"

  /** The state of `SearchMoviesScreen`. */
  class SearchMoviesScreen {
    const apiKey: string
    var searchText: string
    var lastSearchedTerm: string
    var movieDetails: Option<Movie>
    var isLoading: bool
    var errorMessage: Option<string>
    var searchPerformed: bool

    /** A lookup is running and nothing from an earlier one is shown. */
    predicate Awaiting()
      reads this
    {
      isLoading && movieDetails.None? && errorMessage.None?
    }

    /** A lookup has finished and shows exactly one of a record and a message. */
    predicate Settled()
      reads this
    {
      !isLoading && searchPerformed && (movieDetails.Some? <==> errorMessage.None?)
    }

    /** The screen as first composed: no restored term. */
    constructor (apiKey: string)
      ensures this.apiKey == apiKey
      ensures searchText == "" && lastSearchedTerm == ""
      ensures movieDetails.None? && !isLoading && errorMessage.None? && !searchPerformed
    {
      this.apiKey := apiKey;
      searchText := "";
      lastSearchedTerm := "";
      movieDetails := None;
      isLoading := false;
      errorMessage := None;
      searchPerformed := false;
    }

    /** The text field's `onValueChange`. */
    method EditText(text: string)
      modifies this`searchText
      ensures searchText == text
    {
      searchText := text;
    }

    /**
     * `performSearch`: a lookup of the text is launched only when the text is not blank and the
     * key is not the placeholder; otherwise only the message changes, the placeholder key taking
     * precedence over the blank title, and a record already shown stays.
     */
    method PerformSearch() returns (launched: Option<string>)
      modifies this`lastSearchedTerm, this`isLoading, this`errorMessage, this`movieDetails
      ensures launched.Some? <==> !IsBlank(searchText) && apiKey != PlaceholderKey
      ensures launched.Some? ==> launched.value == searchText && lastSearchedTerm == searchText && Awaiting()
      ensures launched.None? ==>
        && errorMessage == Some(if apiKey == PlaceholderKey then ApiKeyMessage else EmptyTitleMessage)
        && lastSearchedTerm == old(lastSearchedTerm) && isLoading == old(isLoading)
        && movieDetails == old(movieDetails)
    {
      if !IsBlank(searchText) && apiKey != PlaceholderKey {
        lastSearchedTerm := searchText;
        isLoading := true;
        errorMessage := None;
        movieDetails := None;
        launched := Some(searchText);
      } else if apiKey == PlaceholderKey {
        errorMessage := Some(ApiKeyMessage);
        launched := None;
      } else {
        errorMessage := Some(EmptyTitleMessage);
        launched := None;
      }
    }

    /**
     * The `LaunchedEffect` run when the screen is composed again: a remembered non-blank term is
     * looked up again, without the key check `performSearch` makes.
     */
    method Relaunch() returns (launched: Option<string>)
      modifies this`isLoading, this`errorMessage, this`movieDetails
      ensures launched.Some? <==> !IsBlank(lastSearchedTerm)
      ensures launched.Some? ==> launched.value == lastSearchedTerm && Awaiting()
      ensures launched.None? ==>
        isLoading == old(isLoading) && errorMessage == old(errorMessage) && movieDetails == old(movieDetails)
    {
      if !IsBlank(lastSearchedTerm) {
        isLoading := true;
        errorMessage := None;
        movieDetails := None;
        launched := Some(lastSearchedTerm);
      } else {
        launched := None;
      }
    }

    /**
     * The end of a launched lookup: loading stops, a search counts as performed, and the record or
     * the failure's message (or "Unknown error fetching movie") is shown. After a launch, exactly
     * one of the two is shown.
     */
    method CompleteSearch(result: Result<Movie>)
      modifies this`isLoading, this`searchPerformed, this`movieDetails, this`errorMessage
      ensures !isLoading && searchPerformed
      ensures result.Success? ==> movieDetails == Some(result.value) && errorMessage == old(errorMessage)
      ensures result.Failure? ==>
        errorMessage == Some(MessageOr(result.error, FetchFallback)) && movieDetails == old(movieDetails)
      ensures old(Awaiting()) ==> Settled()
    {
      isLoading := false;
      searchPerformed := true;
      match result
      case Success(m) => movieDetails := Some(m);
      case Failure(e) => errorMessage := Some(MessageOr(e, FetchFallback));
    }

    /**
     * A whole search against one answer: when it is launched, the screen ends settled, showing
     * the record exactly when the answer was accepted.
     */
    method Search(answer: Exchange) returns (launched: Option<string>)
      modifies this`lastSearchedTerm, this`isLoading, this`errorMessage, this`movieDetails, this`searchPerformed
      ensures launched.Some? <==> !IsBlank(searchText) && apiKey != PlaceholderKey
      ensures launched.Some? ==> Settled() && (movieDetails.Some? <==> Accepted(answer))
      ensures launched.Some? && Accepted(answer) ==> movieDetails == Some(MovieFromJson(answer.body.payload.obj))
    {
      launched := PerformSearch();
      if launched.Some? {
        CompleteSearch(FetchMovieFromApi(answer));
      }
    }
  }
}
