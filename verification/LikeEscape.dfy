/** `escape_like` from the database helpers, and what its output means to a
    PostgreSQL `LIKE ... ESCAPE '\'` operator (section 9.7.1 of the PostgreSQL
    manual). */
module LikeEscape {

  const ESCAPE_CHAR: char := '\\'

  /** `value.replace(c, repl)` for a one-character needle. */
  function Replace(value: string, c: char, repl: string): string {
    if value == [] then []
    else (if value[0] == c then repl else [value[0]]) + Replace(value[1..], c, repl)
  }

  /** The three successive replacements, in the order the code applies them. */
  function EscapeLike(value: string): string {
    var backslashes := Replace(value, ESCAPE_CHAR, [ESCAPE_CHAR, ESCAPE_CHAR]);
    var percents := Replace(backslashes, '%', [ESCAPE_CHAR, '%']);
    Replace(percents, '_', [ESCAPE_CHAR, '_'])
  }

  predicate Special(c: char) {
    c == ESCAPE_CHAR || c == '%' || c == '_'
  }

  /** The reference meaning: every special character gains one escape in front. */
  function EscapeEach(value: string): string {
    if value == [] then []
    else (if Special(value[0]) then [ESCAPE_CHAR, value[0]] else [value[0]]) + EscapeEach(value[1..])
  }

  /** LIKE semantics: `%` matches any run of characters, `_` any one character,
      the escape character makes the next one literal. A pattern that ends in a
      lone escape character (an error in PostgreSQL) matches nothing here. */
  ghost predicate Like(pattern: string, s: string)
    decreases |pattern|
  {
    if pattern == [] then s == []
    else if pattern[0] == '%' then exists k :: 0 <= k <= |s| && Like(pattern[1..], s[k..])
    else if pattern[0] == '_' then s != [] && Like(pattern[1..], s[1..])
    else if pattern[0] == ESCAPE_CHAR then
      |pattern| >= 2 && s != [] && s[0] == pattern[1] && Like(pattern[2..], s[1..])
    else s != [] && s[0] == pattern[0] && Like(pattern[1..], s[1..])
  }

  ghost predicate OccursAt(term: string, s: string, at: int) {
    0 <= at <= |s| - |term| && s[at..at + |term|] == term
  }

  lemma {:induction false} ReplaceConcat(a: string, b: string, c: char, repl: string)
    ensures Replace(a + b, c, repl) == Replace(a, c, repl) + Replace(b, c, repl)
  {
    if a == [] {
      assert a + b == b;
    } else {
      ReplaceConcat(a[1..], b, c, repl);
      assert (a + b)[0] == a[0] && (a + b)[1..] == a[1..] + b;
      var head := if a[0] == c then repl else [a[0]];
      var x, y := Replace(a[1..], c, repl), Replace(b, c, repl);
      assert head + (x + y) == head + x + y;
    }
  }

  lemma ReplaceShort(a: char, b: char, c: char, repl: string)
    ensures Replace([a], c, repl) == if a == c then repl else [a]
    ensures Replace([a, b], c, repl) == Replace([a], c, repl) + Replace([b], c, repl)
  {
    assert [a, b][1..] == [b];
    assert Replace([a], c, repl) == (if a == c then repl else [a]) + [];
  }

  /** One character at a time the three passes act as one. */
  lemma EscapeOneCharacter(c: char)
    ensures EscapeLike([c]) == if Special(c) then [ESCAPE_CHAR, c] else [c]
  {
    var e := ESCAPE_CHAR;
    ReplaceShort(c, c, e, [e, e]);
    ReplaceShort(c, c, '%', [e, '%']);
    ReplaceShort(e, e, '%', [e, '%']);
    ReplaceShort(e, c, '_', [e, '_']);
    ReplaceShort(c, c, '_', [e, '_']);
    ReplaceShort(e, e, '_', [e, '_']);
  }

  lemma EscapeLikeConcat(a: string, b: string)
    ensures EscapeLike(a + b) == EscapeLike(a) + EscapeLike(b)
  {
    var bs := [ESCAPE_CHAR, ESCAPE_CHAR];
    ReplaceConcat(a, b, ESCAPE_CHAR, bs);
    var a1, b1 := Replace(a, ESCAPE_CHAR, bs), Replace(b, ESCAPE_CHAR, bs);
    ReplaceConcat(a1, b1, '%', [ESCAPE_CHAR, '%']);
    ReplaceConcat(Replace(a1, '%', [ESCAPE_CHAR, '%']), Replace(b1, '%', [ESCAPE_CHAR, '%']), '_', [ESCAPE_CHAR, '_']);
  }

  /** The three passes never re-escape each other's output. */
  lemma {:induction false} EscapeIsPerCharacter(value: string)
    ensures EscapeLike(value) == EscapeEach(value)
  {
    if value != [] {
      assert value == [value[0]] + value[1..];
      EscapeLikeConcat([value[0]], value[1..]);
      EscapeOneCharacter(value[0]);
      EscapeIsPerCharacter(value[1..]);
    }
  }

  /** An escaped term consumes exactly itself, whatever pattern follows it. */
  lemma {:induction false} EscapedPrefixMatches(term: string, rest: string, s: string)
    ensures Like(EscapeEach(term) + rest, s)
       <==> term <= s && Like(rest, s[|term|..])
  {
    if term == [] {
      assert EscapeEach(term) + rest == rest && s[0..] == s;
    } else {
      var head := if Special(term[0]) then [ESCAPE_CHAR, term[0]] else [term[0]];
      var tail := EscapeEach(term[1..]) + rest;
      var pattern := EscapeEach(term) + rest;
      assert pattern == head + tail;
      assert pattern[|head|..] == tail;
      if s != [] {
        EscapedPrefixMatches(term[1..], rest, s[1..]);
        assert term <= s <==> s[0] == term[0] && term[1..] <= s[1..];
        if |term| <= |s| {
          assert s[1..][|term[1..]|..] == s[|term|..];
        }
      }
    }
  }

  /** The escaped term, used as a whole pattern, matches the term and nothing else. */
  lemma EscapedMatchesOnlyItself(term: string, s: string)
    ensures Like(EscapeLike(term), s) <==> s == term
  {
    EscapeIsPerCharacter(term);
    assert EscapeEach(term) + [] == EscapeEach(term);
    EscapedPrefixMatches(term, [], s);
  }

  lemma PercentMatchesAll(s: string)
    ensures Like("%", s)
  {
    assert s[|s|..] == [] && "%"[1..] == [];
    assert Like("%"[1..], s[|s|..]);
  }

  /** `f"%{escape_like(term)}%"` is a plain substring search. */
  lemma SearchIsSubstring(term: string, s: string)
    ensures Like("%" + EscapeLike(term) + "%", s) <==> exists at :: OccursAt(term, s, at)
  {
    EscapeIsPerCharacter(term);
    var inner := EscapeEach(term) + "%";
    var pattern := "%" + EscapeLike(term) + "%";
    assert pattern[1..] == inner;
    forall k | 0 <= k <= |s|
      ensures Like(inner, s[k..]) <==> OccursAt(term, s, k)
    {
      EscapedPrefixMatches(term, "%", s[k..]);
      if term <= s[k..] {
        PercentMatchesAll(s[k..][|term|..]);
        assert s[k..][..|term|] == s[k..k + |term|];
      }
    }
    if Like(pattern, s) {
      var k :| 0 <= k <= |s| && Like(pattern[1..], s[k..]);
      assert OccursAt(term, s, k);
    }
    if exists at :: OccursAt(term, s, at) {
      var at :| OccursAt(term, s, at);
      assert Like(pattern[1..], s[at..]);
    }
  }

  /** Distinct search terms never collapse to one pattern. */
  lemma EscapeIsInjective(a: string, b: string)
    requires EscapeLike(a) == EscapeLike(b)
    ensures a == b
  {
    EscapedMatchesOnlyItself(a, a);
    EscapedMatchesOnlyItself(b, a);
  }
}
