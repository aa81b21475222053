/**
 * The `movies` table entity: a surrogate primary key `id` (auto-generated, 0 meaning
 * "not yet assigned") and thirteen nullable text fields. There is no external identifier
 * such as an IMDb id, and no content field is unique. Equality of two values is
 * structural over all fourteen components, `id` included, as for a Kotlin data class.
 */
module Movies {
  import opened Outcomes

  datatype Movie = Movie(
    id: int,
    title: Option<string>,
    year: Option<string>,
    rated: Option<string>,
    released: Option<string>,
    runtime: Option<string>,
    genre: Option<string>,
    director: Option<string>,
    writer: Option<string>,
    actors: Option<string>,
    plot: Option<string>,
    poster: Option<string>,
    imdbRating: Option<string>,
    type_: Option<string>)

  /** The default value of `id` when a record is built without one. */
  const DefaultId: int := 0

  /** A record built without an explicit `id`, as `createMovieFromMap` and the API mapper build them. */
  function NewMovie(
    title: Option<string>, year: Option<string>, rated: Option<string>, released: Option<string>,
    runtime: Option<string>, genre: Option<string>, director: Option<string>, writer: Option<string>,
    actors: Option<string>, plot: Option<string>, poster: Option<string>, imdbRating: Option<string>,
    type_: Option<string>): (m: Movie)
    ensures m.id == DefaultId
    ensures m.title == title && m.year == year && m.rated == rated && m.released == released
    ensures m.runtime == runtime && m.genre == genre && m.director == director && m.writer == writer
    ensures m.actors == actors && m.plot == plot && m.poster == poster
    ensures m.imdbRating == imdbRating && m.type_ == type_
  {
    Movie(DefaultId, title, year, rated, released, runtime, genre, director, writer,
          actors, plot, poster, imdbRating, type_)
  }

  /** The record with every content field kept and the key reset to the default. */
  function WithoutId(m: Movie): (r: Movie)
    ensures r.id == DefaultId
  {
    m.(id := DefaultId)
  }

  /** At least one of the thirteen content fields is non-null. */
  predicate HasSomeField(m: Movie) {
    || m.title.Some? || m.year.Some? || m.rated.Some? || m.released.Some?
    || m.runtime.Some? || m.genre.Some? || m.director.Some? || m.writer.Some?
    || m.actors.Some? || m.plot.Some? || m.poster.Some? || m.imdbRating.Some? || m.type_.Some?
  }

  /**
   * Equality is structural over all fourteen components: two records with the same content
   * but different keys are different values, and equal once their keys are reset.
   */
  lemma KeyIsPartOfEquality(m: Movie, k: int)
    requires k != m.id
    ensures m.(id := k) != m
    ensures WithoutId(m.(id := k)) == WithoutId(m)
  {
  }
}
