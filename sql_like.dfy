/**
 * SQLite's `LIKE` operator as the actor search uses it: no `ESCAPE` clause, the default
 * case-insensitive mode (ASCII letters only), `%` matching any run of characters and `_`
 * matching exactly one.
 */
module SqlLike {
  import opened Outcomes
  import opened Text

  /** Characters with a special meaning in a `LIKE` pattern. */
  predicate IsWildcard(c: char) {
    c == '%' || c == '_'
  }

  predicate NoWildcards(s: string) {
    forall i :: 0 <= i < |s| ==> !IsWildcard(s[i])
  }

  /**
   * `s LIKE p`, with `s` and `p` both non-NULL. Without `%`, every pattern character stands
   * for exactly one character of `s`.
   */
  function Like(s: string, p: string): (r: bool)
    ensures r && '%' !in p ==> |s| == |p|
    decreases |s| + |p|
  {
    if p == [] then s == []
    else if p[0] == '%' then Like(s, p[1..]) || (s != [] && Like(s[1..], p))
    else s != [] && (p[0] == '_' || LowerChar(s[0]) == LowerChar(p[0])) && Like(s[1..], p[1..])
  }

  /** `t` occurs in `s` at position `i`, ASCII letters compared without regard to case. */
  ghost predicate OccursAt(s: string, t: string, i: int) {
    0 <= i <= |s| - |t| && Lower(s[i..i + |t|]) == Lower(t)
  }

  /** `t` occurs in `s` at some position, ASCII letters compared without regard to case. */
  ghost predicate ContainsIgnoringCase(s: string, t: string) {
    exists i :: OccursAt(s, t, i)
  }

  /**
   * The actor filter `LOWER(actors) LIKE '%' || LOWER(:actorName) || '%'`. A NULL `actors`
   * makes the comparison NULL, which does not select the row.
   */
  function ActorLike(actors: Option<string>, query: string): (r: bool)
    ensures actors.None? ==> !r
  {
    actors.Some? && Like(Lower(actors.value), "%" + Lower(query) + "%")
  }

  /** A lone `%` matches every string. */
  lemma {:induction false} PercentMatchesAll(s: string)
    ensures Like(s, "%")
  {
    if s != [] {
      PercentMatchesAll(s[1..]);
    }
  }

  /** A leading `%` lets the rest of the pattern match any suffix. */
  lemma {:induction false} LeadingPercent(s: string, p: string)
    ensures Like(s, "%" + p) <==> exists i :: 0 <= i <= |s| && Like(s[i..], p)
  {
    var pp := "%" + p;
    assert pp[1..] == p;
    if s == [] {
      assert Like(s, pp) == Like(s, p);
      if Like(s, p) {
        assert s[0..] == s;
      }
    } else {
      LeadingPercent(s[1..], p);
      if Like(s, pp) {
        if !Like(s, p) {
          assert Like(s[1..], pp);
          var j :| 0 <= j <= |s[1..]| && Like(s[1..][j..], p);
          assert s[1..][j..] == s[j + 1..];
        } else {
          assert s[0..] == s;
        }
      }
      if exists i :: 0 <= i <= |s| && Like(s[i..], p) {
        var i :| 0 <= i <= |s| && Like(s[i..], p);
        if i == 0 {
          assert s[0..] == s;
        } else {
          assert s[1..][i - 1..] == s[i..];
        }
      }
    }
  }

  /**
   * A pattern that starts with a wildcard-free literal matches exactly when the string starts
   * with that literal, ignoring ASCII case, and the rest of the pattern matches the rest.
   */
  lemma {:induction false} LiteralPrefix(s: string, q: string, rest: string)
    requires NoWildcards(q)
    ensures Like(s, q + rest) <==> |s| >= |q| && Lower(s[..|q|]) == Lower(q) && Like(s[|q|..], rest)
  {
    if q == [] {
      assert q + rest == rest;
      assert s[|q|..] == s;
    } else if s != [] {
      var p := q + rest;
      assert p[0] == q[0] && p[1..] == q[1..] + rest;
      assert !IsWildcard(q[0]);
      assert Like(s, p) == (LowerChar(s[0]) == LowerChar(q[0]) && Like(s[1..], q[1..] + rest));
      LiteralPrefix(s[1..], q[1..], rest);
      if |s| >= |q| {
        assert s[1..][|q| - 1..] == s[|q|..];
        LowerCons(s[0], s[1..][..|q| - 1]);
        assert s[..|q|] == [s[0]] + s[1..][..|q| - 1];
        LowerCons(q[0], q[1..]);
        assert q == [q[0]] + q[1..];
        ConsEquality(LowerChar(s[0]), Lower(s[1..][..|q| - 1]), LowerChar(q[0]), Lower(q[1..]));
      }
    }
  }

  lemma LowerCons(c: char, t: string)
    ensures Lower([c] + t) == [LowerChar(c)] + Lower(t)
  {
  }

  lemma ConsEquality(a: char, x: string, b: char, y: string)
    ensures [a] + x == [b] + y <==> a == b && x == y
  {
    if [a] + x == [b] + y {
      assert ([a] + x)[0] == a && ([b] + y)[0] == b;
      assert ([a] + x)[1..] == x && ([b] + y)[1..] == y;
    }
  }

  /** With a wildcard-free query, `%query%` is a case-insensitive substring test. */
  lemma SubstringPattern(s: string, q: string)
    requires NoWildcards(q)
    ensures Like(s, "%" + q + "%") <==> ContainsIgnoringCase(s, q)
  {
    assert "%" + q + "%" == "%" + (q + "%");
    LeadingPercent(s, q + "%");
    if Like(s, "%" + q + "%") {
      var i :| 0 <= i <= |s| && Like(s[i..], q + "%");
      LiteralPrefix(s[i..], q, "%");
      assert s[i..][..|q|] == s[i..i + |q|];
      assert OccursAt(s, q, i);
    }
    if ContainsIgnoringCase(s, q) {
      var i :| OccursAt(s, q, i);
      assert s[i..][..|q|] == s[i..i + |q|];
      PercentMatchesAll(s[i..][|q|..]);
      LiteralPrefix(s[i..], q, "%");
    }
  }

  /** Lowering neither creates nor removes a wildcard. */
  lemma LowerKeepsWildcards(q: string)
    ensures NoWildcards(Lower(q)) <==> NoWildcards(q)
  {
    assert forall i :: 0 <= i < |q| ==> (IsWildcard(Lower(q)[i]) <==> IsWildcard(q[i]));
  }

  /**
   * For a query without `%` or `_`, the actor filter selects exactly the non-NULL actor lists
   * that contain the query, ignoring ASCII case.
   */
  lemma ActorSearchIsSubstring(actors: Option<string>, query: string)
    requires NoWildcards(query)
    ensures ActorLike(actors, query) <==> actors.Some? && ContainsIgnoringCase(actors.value, query)
  {
    if actors.Some? {
      var a := actors.value;
      LowerKeepsWildcards(query);
      SubstringPattern(Lower(a), Lower(query));
      LowerIdempotent(a);
      LowerIdempotent(query);
      if ContainsIgnoringCase(Lower(a), Lower(query)) {
        var i :| OccursAt(Lower(a), Lower(query), i);
        LowerSlice(a, i, i + |query|);
        LowerIdempotent(a[i..i + |query|]);
        assert OccursAt(a, query, i);
      }
      if ContainsIgnoringCase(a, query) {
        var i :| OccursAt(a, query, i);
        LowerSlice(a, i, i + |query|);
        LowerIdempotent(a[i..i + |query|]);
        assert OccursAt(Lower(a), Lower(query), i);
      }
    }
  }

  /** The empty query, pattern `%%`, selects every row whose actors are not NULL. */
  lemma EmptyQueryMatchesAll(actors: Option<string>)
    ensures ActorLike(actors, "") <==> actors.Some?
  {
    if actors.Some? {
      var s := Lower(actors.value);
      assert "%" + Lower("") + "%" == "%%";
      LeadingPercent(s, "%");
      PercentMatchesAll(s);
      assert s[0..] == s;
    }
  }

  /** `%` in the query is not escaped: the query `%` also selects every non-NULL row. */
  lemma PercentQueryMatchesAll(actors: Option<string>)
    ensures ActorLike(actors, "%") <==> actors.Some?
  {
    if actors.Some? {
      var s := Lower(actors.value);
      assert "%" + Lower("%") + "%" == "%" + "%%";
      LeadingPercent(s, "%%");
      LeadingPercent(s, "%");
      PercentMatchesAll(s);
      assert s[0..] == s;
      assert s[0..][0..] == s;
    }
  }

  /** `_` in the query is not escaped: the query `_` selects the rows with at least one actor character. */
  lemma UnderscoreQueryNeedsOneCharacter(actors: Option<string>)
    ensures ActorLike(actors, "_") <==> actors.Some? && |actors.value| >= 1
  {
    if actors.Some? {
      var s := Lower(actors.value);
      assert "%" + Lower("_") + "%" == "%" + "_%";
      LeadingPercent(s, "_%");
      if |s| >= 1 {
        PercentMatchesAll(s[1..]);
        assert Like(s[0..], "_%");
      } else {
        forall i | 0 <= i <= |s| ensures !Like(s[i..], "_%") {
        }
      }
    }
  }
}
