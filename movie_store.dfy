/**
 * The `movies` table behind `MovieDao`.
 *
 * The key column is `INTEGER PRIMARY KEY AUTOINCREMENT`. Both inserts bind a key of 0 as NULL,
 * so a record with the default key gets a fresh key: one more than the largest key the table
 * has ever held (the `sqlite_sequence` high-water mark). A record with any other key is written
 * under that key with `INSERT OR REPLACE`: a row holding the same key is overwritten, and the
 * high-water mark rises to that key when it is larger. No other column is unique, so equal
 * content under different keys is stored twice.
 *
 * `SELECT` without `ORDER BY` promises no row order, so the queries are stated up to order.
 */
module MovieStore {
  import opened Outcomes
  import opened Movies
  import opened SqlLike
  import BulkParser

  /** The table contents and its high-water mark. */
  datatype Table = Table(rows: seq<Movie>, sequence: int)

  const Empty: Table := Table([], 0)

  function Ids(rows: seq<Movie>): set<int> {
    set i | 0 <= i < |rows| :: rows[i].id
  }

  predicate DistinctIds(rows: seq<Movie>) {
    forall i, j :: 0 <= i < j < |rows| ==> rows[i].id != rows[j].id
  }

  /** The table invariant: keys are unique, never 0, and never above the high-water mark. */
  predicate WellFormed(t: Table) {
    && t.sequence >= 0
    && DistinctIds(t.rows)
    && (forall i :: 0 <= i < |t.rows| ==> t.rows[i].id != DefaultId && t.rows[i].id <= t.sequence)
  }

  /** The key a record is stored under: a fresh one for the default key, its own otherwise. */
  function AssignedId(t: Table, m: Movie): (id: int)
    ensures m.id != DefaultId ==> id == m.id
    ensures m.id == DefaultId ==> id == t.sequence + 1
    ensures WellFormed(t) && m.id == DefaultId ==> id !in Ids(t.rows)
  {
    if m.id == DefaultId then t.sequence + 1 else m.id
  }

  /** The position of the row holding `id`, or -1. */
  function FindRow(rows: seq<Movie>, id: int): (i: int)
    ensures -1 <= i < |rows|
    ensures i >= 0 ==> rows[i].id == id
    ensures i == -1 <==> id !in Ids(rows)
  {
    if rows == [] then -1
    else if rows[0].id == id then 0
    else
      var k := FindRow(rows[1..], id);
      assert Ids(rows) == {rows[0].id} + Ids(rows[1..]) by {
        forall x | x in Ids(rows) ensures x in {rows[0].id} + Ids(rows[1..]) {
          var i :| 0 <= i < |rows| && rows[i].id == x;
          if i > 0 { assert rows[1..][i - 1].id == x; }
        }
      }
      if k == -1 then -1 else k + 1
  }

  /** `INSERT OR REPLACE` of one record, its key already resolved. */
  function Upsert(rows: seq<Movie>, row: Movie): (r: seq<Movie>)
    ensures row in r
    ensures |r| == |rows| || |r| == |rows| + 1
  {
    var i := FindRow(rows, row.id);
    if i >= 0 then assert rows[i := row][i] == row; rows[i := row] else rows + [row]
  }

  /** `insertMovie`: store the record under its assigned key and raise the high-water mark. */
  function Insert(t: Table, m: Movie): (r: Table)
    ensures m.(id := AssignedId(t, m)) in r.rows
    ensures r.sequence >= t.sequence && r.sequence >= AssignedId(t, m)
    ensures |r.rows| >= |t.rows|
  {
    var id := AssignedId(t, m);
    Table(Upsert(t.rows, m.(id := id)), if id > t.sequence then id else t.sequence)
  }

  /** Overwriting the row that holds the new row's key. */
  lemma UpsertReplaces(rows: seq<Movie>, row: Movie, i: int)
    requires DistinctIds(rows) && 0 <= i < |rows| && rows[i].id == row.id
    ensures var r := rows[i := row];
      && DistinctIds(r)
      && row in r
      && (forall x :: x in rows && x.id != row.id ==> x in r)
      && (forall x :: x in r ==> x == row || (x in rows && x.id != row.id))
      && Ids(r) == Ids(rows)
  {
    var r := rows[i := row];
    forall x | x in rows && x.id != row.id ensures x in r {
      var j :| 0 <= j < |rows| && rows[j] == x;
      assert r[j] == x;
    }
    forall x | x in r ensures x == row || (x in rows && x.id != row.id) {
      var j :| 0 <= j < |r| && r[j] == x;
      if j != i { assert rows[j] == x; }
    }
    assert r[i] == row;
    forall x | x in Ids(rows) ensures x in Ids(r) {
      var j :| 0 <= j < |rows| && rows[j].id == x;
      assert r[j].id == x;
    }
  }

  /** Appending a row under a key not yet present. */
  lemma UpsertAppends(rows: seq<Movie>, row: Movie)
    requires DistinctIds(rows) && row.id !in Ids(rows)
    ensures var r := rows + [row];
      && DistinctIds(r)
      && row in r
      && (forall x :: x in rows ==> x in r)
      && (forall x :: x in r ==> x == row || x in rows)
      && Ids(r) == Ids(rows) + {row.id}
  {
    var r := rows + [row];
    assert r[|rows|] == row;
    forall x | x in Ids(rows) ensures x in Ids(r) {
      var j :| 0 <= j < |rows| && rows[j].id == x;
      assert r[j].id == x;
    }
    forall j | 0 <= j < |rows| ensures rows[j].id != row.id {
      assert rows[j].id in Ids(rows);
    }
  }

  /**
   * What an insert does to a well-formed table: the record is stored under its assigned key,
   * every row under another key stays, nothing else appears, the row count grows by one exactly
   * when the key was not present before, and the table stays well-formed.
   */
  lemma InsertSpec(t: Table, m: Movie)
    requires WellFormed(t)
    ensures var id := AssignedId(t, m); var r := Insert(t, m);
      && WellFormed(r)
      && m.(id := id) in r.rows
      && (forall row :: row in t.rows && row.id != id ==> row in r.rows)
      && (forall row :: row in r.rows ==> row == m.(id := id) || (row in t.rows && row.id != id))
      && Ids(r.rows) == Ids(t.rows) + {id}
      && |r.rows| == if id in Ids(t.rows) then |t.rows| else |t.rows| + 1
  {
    var id := AssignedId(t, m);
    var row := m.(id := id);
    var r := Insert(t, m);
    var i := FindRow(t.rows, id);
    if i >= 0 {
      UpsertReplaces(t.rows, row, i);
    } else {
      UpsertAppends(t.rows, row);
    }
    forall j | 0 <= j < |r.rows| ensures r.rows[j].id != DefaultId && r.rows[j].id <= r.sequence {
      assert r.rows[j] in r.rows;
    }
  }

  /** REPLACE: a record whose key is already in the table overwrites that row; the count is unchanged. */
  lemma ReplaceKeepsCount(t: Table, m: Movie)
    requires WellFormed(t) && m.id in Ids(t.rows)
    ensures |Insert(t, m).rows| == |t.rows|
    ensures m in Insert(t, m).rows
    ensures forall row :: row in t.rows && row.id == m.id && row != m ==> row !in Insert(t, m).rows
  {
    InsertSpec(t, m);
  }

  /** A record with the default key always adds a row, under a key the table never held. */
  lemma AutoIdAddsRow(t: Table, m: Movie)
    requires WellFormed(t) && m.id == DefaultId
    ensures |Insert(t, m).rows| == |t.rows| + 1
    ensures AssignedId(t, m) == t.sequence + 1 && AssignedId(t, m) !in Ids(t.rows)
    ensures Insert(t, m).sequence == t.sequence + 1
  {
    InsertSpec(t, m);
  }

  /** A record with the default key is appended under the high-water mark plus one, which it becomes. */
  lemma AutoIdAppends(t: Table, m: Movie)
    requires WellFormed(t) && m.id == DefaultId
    ensures Insert(t, m) == Table(t.rows + [m.(id := t.sequence + 1)], t.sequence + 1)
    ensures WellFormed(Insert(t, m))
  {
    InsertSpec(t, m);
  }

  /** No deduplication by content: inserting the same record with the default key twice adds two rows. */
  lemma SameContentTwice(t: Table, m: Movie)
    requires WellFormed(t) && m.id == DefaultId
    ensures var r := Insert(Insert(t, m), m);
      && |r.rows| == |t.rows| + 2
      && m.(id := t.sequence + 1) in r.rows && m.(id := t.sequence + 2) in r.rows
  {
    var t1 := Insert(t, m);
    InsertSpec(t, m);
    InsertSpec(t1, m);
    assert t1.sequence == t.sequence + 1;
  }

  /** `insertMovies`: the same rule applied to each record in list order. */
  function InsertAll(t: Table, ms: seq<Movie>): (r: Table)
    ensures r.sequence >= t.sequence && |r.rows| >= |t.rows|
    ensures |r.rows| <= |t.rows| + |ms|
  {
    if ms == [] then t else Insert(InsertAll(t, ms[..|ms| - 1]), ms[|ms| - 1])
  }

  /** A batch of keyless records, each given the next key after `base`, in order. */
  function Keyed(ms: seq<Movie>, base: int): (ks: seq<Movie>)
    ensures |ks| == |ms|
  {
    if ms == [] then [] else Keyed(ms[..|ms| - 1], base) + [ms[|ms| - 1].(id := base + |ms|)]
  }

  /** The record at position `i` of a keyed batch carries the key `base + i + 1`. */
  lemma {:induction false} KeyedAt(ms: seq<Movie>, base: int, i: int)
    requires 0 <= i < |ms|
    ensures Keyed(ms, base)[i] == ms[i].(id := base + i + 1)
  {
    var init := ms[..|ms| - 1];
    if i < |ms| - 1 {
      KeyedAt(init, base, i);
      assert init[i] == ms[i];
    }
  }

  /** A batch of keyless records is appended in order, under consecutive fresh keys. */
  lemma {:induction false} InsertAllAppends(t: Table, ms: seq<Movie>)
    requires WellFormed(t) && BulkParser.AllDefaultIds(ms)
    ensures InsertAll(t, ms) == Table(t.rows + Keyed(ms, t.sequence), t.sequence + |ms|)
  {
    if ms == [] {
      assert t.rows + Keyed(ms, t.sequence) == t.rows;
    } else {
      var init := ms[..|ms| - 1];
      assert BulkParser.AllDefaultIds(init) by {
        forall i | 0 <= i < |init| ensures init[i].id == DefaultId {
          assert init[i] == ms[i];
        }
      }
      InsertAllAppends(t, init);
      InsertAllSnoc(t, ms);
    }
  }

  /** The inductive step of `InsertAllAppends`: one more keyless record goes under the next key. */
  lemma InsertAllSnoc(t: Table, ms: seq<Movie>)
    requires WellFormed(t) && ms != [] && ms[|ms| - 1].id == DefaultId
    requires InsertAll(t, ms[..|ms| - 1]) == Table(t.rows + Keyed(ms[..|ms| - 1], t.sequence), t.sequence + |ms[..|ms| - 1]|)
    ensures InsertAll(t, ms) == Table(t.rows + Keyed(ms, t.sequence), t.sequence + |ms|)
  {
    var init, last := ms[..|ms| - 1], ms[|ms| - 1];
    var prev := InsertAll(t, init);
    assert WellFormed(prev) by {
      InsertAllKeepsWellFormed(t, init);
    }
    InsertNextKey(prev, t.rows + Keyed(init, t.sequence), t.sequence + |init|, last);
    KeyedSnoc(t.rows, ms, t.sequence);
    assert InsertAll(t, ms) == Insert(prev, last);
  }

  /** A keyless record inserted into a well-formed table of rows `rows` and high-water mark `q` is appended under `q + 1`. */
  lemma InsertNextKey(p: Table, rows: seq<Movie>, q: int, m: Movie)
    requires WellFormed(p) && p == Table(rows, q) && m.id == DefaultId
    ensures Insert(p, m) == Table(rows + [m.(id := q + 1)], q + 1)
  {
    AutoIdAppends(p, m);
  }

  /** Keying one more record appends it under the next key. */
  lemma KeyedSnoc(rows: seq<Movie>, ms: seq<Movie>, base: int)
    requires ms != []
    ensures rows + Keyed(ms, base) == rows + Keyed(ms[..|ms| - 1], base) + [ms[|ms| - 1].(id := base + |ms[..|ms| - 1]| + 1)]
  {
    assert base + |ms[..|ms| - 1]| + 1 == base + |ms|;
  }

  /**
   * Records with the default key are never merged: every row already stored stays, and the
   * record at position `i` of the batch is stored under the fresh key `sequence + i + 1`.
   */
  lemma InsertAllDefaultIds(t: Table, ms: seq<Movie>)
    requires WellFormed(t) && BulkParser.AllDefaultIds(ms)
    ensures |InsertAll(t, ms).rows| == |t.rows| + |ms|
    ensures InsertAll(t, ms).sequence == t.sequence + |ms|
    ensures forall row :: row in t.rows ==> row in InsertAll(t, ms).rows
    ensures forall i :: 0 <= i < |ms| ==> ms[i].(id := t.sequence + i + 1) in InsertAll(t, ms).rows
    ensures WellFormed(InsertAll(t, ms))
  {
    var r := InsertAll(t, ms);
    assert r == Table(t.rows + Keyed(ms, t.sequence), t.sequence + |ms|) by {
      InsertAllAppends(t, ms);
    }
    assert (forall row :: row in t.rows ==> row in r.rows)
      && (forall i :: 0 <= i < |ms| ==> ms[i].(id := t.sequence + i + 1) in r.rows) by {
      KeyedAppendHolds(t.rows, ms, t.sequence);
    }
    InsertAllKeepsWellFormed(t, ms);
  }

  /** Appending a keyed batch keeps every earlier row and holds each record of the batch under its key. */
  lemma KeyedAppendHolds(rows: seq<Movie>, ms: seq<Movie>, base: int)
    ensures forall row :: row in rows ==> row in rows + Keyed(ms, base)
    ensures forall i :: 0 <= i < |ms| ==> ms[i].(id := base + i + 1) in rows + Keyed(ms, base)
  {
    var k := Keyed(ms, base);
    forall i | 0 <= i < |ms| ensures ms[i].(id := base + i + 1) in rows + k {
      KeyedAt(ms, base, i);
      assert (rows + k)[|rows| + i] == k[i];
    }
  }

  /** A batch insert keeps the table well-formed and never loses a key. */
  lemma {:induction false} InsertAllKeepsWellFormed(t: Table, ms: seq<Movie>)
    requires WellFormed(t)
    ensures WellFormed(InsertAll(t, ms))
    ensures Ids(t.rows) <= Ids(InsertAll(t, ms).rows)
  {
    if ms != [] {
      InsertAllKeepsWellFormed(t, ms[..|ms| - 1]);
      InsertSpec(InsertAll(t, ms[..|ms| - 1]), ms[|ms| - 1]);
    }
  }

  /**
   * Loading a parsed feed adds exactly one row per parsed record: the rows already stored stay,
   * and the `i`-th parsed record is stored under the fresh key `sequence + i + 1`.
   */
  lemma LoadingFeedAddsEveryRecord(t: Table, lines: seq<string>)
    requires WellFormed(t)
    ensures var ms := BulkParser.Parse(lines); var r := InsertAll(t, ms);
      && |r.rows| == |t.rows| + |ms|
      && (forall row :: row in t.rows ==> row in r.rows)
      && (forall i :: 0 <= i < |ms| ==> ms[i].(id := t.sequence + i + 1) in r.rows)
  {
    InsertAllDefaultIds(t, BulkParser.Parse(lines));
  }

  /** The rows the actor filter selects, in table order. */
  function Matching(rows: seq<Movie>, query: string): (found: seq<Movie>)
    ensures forall m :: m in found <==> m in rows && ActorLike(m.actors, query)
    ensures multiset(found) <= multiset(rows)
  {
    if rows == [] then []
    else
      var rest := Matching(rows[..|rows| - 1], query);
      assert rows == rows[..|rows| - 1] + [rows[|rows| - 1]];
      if ActorLike(rows[|rows| - 1].actors, query) then rest + [rows[|rows| - 1]] else rest
  }

  /** A record just inserted is found by an actor query exactly when its actors match. */
  lemma SearchAfterInsert(t: Table, m: Movie, query: string)
    requires WellFormed(t)
    ensures m.(id := AssignedId(t, m)) in Matching(Insert(t, m).rows, query) <==> ActorLike(m.actors, query)
  {
    InsertSpec(t, m);
  }

  /** The DAO over one table. */
  class MovieDao {
    var rows: seq<Movie>
    var sequence: int

    function State(): Table
      reads this
    {
      Table(rows, sequence)
    }

    predicate Valid()
      reads this
    {
      WellFormed(State())
    }

    constructor ()
      ensures Valid() && State() == Empty
    {
      rows := [];
      sequence := 0;
    }

    /** `insertMovie`, `@Insert(onConflict = REPLACE)`. */
    method InsertMovie(movie: Movie)
      requires Valid()
      modifies this
      ensures Valid()
      ensures State() == Insert(old(State()), movie)
    {
      InsertSpec(State(), movie);
      var next := Insert(State(), movie);
      rows, sequence := next.rows, next.sequence;
    }

    /** `insertMovies`: one insert per element, in list order. */
    method InsertMovies(movies: seq<Movie>)
      requires Valid()
      modifies this
      ensures Valid()
      ensures State() == InsertAll(old(State()), movies)
    {
      for i := 0 to |movies|
        invariant Valid()
        invariant State() == InsertAll(old(State()), movies[..i])
      {
        assert movies[..i + 1][..i] == movies[..i];
        InsertMovie(movies[i]);
      }
      assert movies[..|movies|] == movies;
    }

    /** `deleteAllMovies`: the table is empty afterwards; what happens to the key counter is not stated. */
    method DeleteAllMovies()
      requires Valid()
      modifies this
      ensures Valid() && rows == []
    {
      rows := [];
    }

    /** `findMoviesByActor`: the rows whose actors match the query, and no others. */
    function FindMoviesByActor(actorName: string): (found: seq<Movie>)
      reads this
      ensures forall m :: m in found <==> m in rows && ActorLike(m.actors, actorName)
      ensures multiset(found) <= multiset(GetAllMovies())
    {
      Matching(rows, actorName)
    }

    /** `getAllMovies`: every stored row, unfiltered. */
    function GetAllMovies(): (all: seq<Movie>)
      reads this
      ensures multiset(all) == multiset(rows)
    {
      rows
    }
  }
}
