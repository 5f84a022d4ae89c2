/**
 * The escaping of SQL LIKE wildcards that the daily generator applies to
 * the generated question text before its case-insensitive lookup
 * (lib/generator/generateDailyQuestions.ts:371-379), together with the
 * store's LIKE / ILIKE matching rule that gives the escape its meaning and
 * the request layer's reading of `*` as `%`, which the escape does not cover.
 */
module LikePattern {
  import opened Text

  /** The characters LIKE treats specially: the two wildcards and the escape. */
  predicate IsLikeSpecial(c: char) {
    c == '%' || c == '_' || c == '\\'
  }

  /** Number of special characters in `s`. */
  function SpecialCount(s: string): nat {
    if s == [] then 0 else (if IsLikeSpecial(s[0]) then 1 else 0) + SpecialCount(s[1..])
  }

  /** `s.replace(/[%_\\]/g, '\\$&')`: put a backslash before every special character. */
  function EscapeLike(s: string): (r: string)
    ensures |r| == |s| + SpecialCount(s)
  {
    if s == [] then []
    else (if IsLikeSpecial(s[0]) then ['\\', s[0]] else [s[0]]) + EscapeLike(s[1..])
  }

  /**
   * LIKE matching with backslash as the escape character: `%` matches any
   * run of characters, `_` any one character, `\x` the character `x`, any
   * other character itself. A pattern that ends in a lone backslash matches
   * nothing (the store rejects it).
   */
  function LikeMatch(t: string, p: string): bool
    decreases |t| + |p|
  {
    if p == [] then t == []
    else if p[0] == '\\' then
      |p| >= 2 && |t| > 0 && t[0] == p[1] && LikeMatch(t[1..], p[2..])
    else if p[0] == '%' then
      LikeMatch(t, p[1..]) || (|t| > 0 && LikeMatch(t[1..], p))
    else if p[0] == '_' then
      |t| > 0 && LikeMatch(t[1..], p[1..])
    else
      |t| > 0 && t[0] == p[0] && LikeMatch(t[1..], p[1..])
  }

  /** ILIKE: LIKE after lower-casing both the text and the pattern. */
  function ILike(t: string, p: string): bool {
    LikeMatch(Lower(t), Lower(p))
  }

  /** An escaped pattern has no wildcard left: it matches exactly the escaped text. */
  lemma {:induction false} EscapedMatchesOnlyItself(t: string, s: string)
    ensures LikeMatch(t, EscapeLike(s)) <==> t == s
  {
    if s != [] {
      var p := EscapeLike(s);
      if IsLikeSpecial(s[0]) {
        assert p[0] == '\\' && p[1] == s[0] && p[2..] == EscapeLike(s[1..]);
      } else {
        assert p[0] == s[0] && p[1..] == EscapeLike(s[1..]);
      }
      if |t| > 0 {
        EscapedMatchesOnlyItself(t[1..], s[1..]);
        assert t == s <==> t[0] == s[0] && t[1..] == s[1..];
      }
    }
  }

  /** Lower-casing leaves the special characters alone, so it commutes with escaping. */
  lemma {:induction false} LowerEscapeCommute(s: string)
    ensures Lower(EscapeLike(s)) == EscapeLike(Lower(s))
  {
    if s != [] {
      LowerEscapeCommute(s[1..]);
      var head := if IsLikeSpecial(s[0]) then ['\\', s[0]] else [s[0]];
      assert EscapeLike(s) == head + EscapeLike(s[1..]);
      LowerConcat(head, EscapeLike(s[1..]));
      LowerConcat([s[0]], s[1..]);
      assert [s[0]] + s[1..] == s;
      var c := LowerChar(s[0]);
      assert Lower(head) == if IsLikeSpecial(c) then ['\\', c] else [c];
      assert Lower(s) == [c] + Lower(s[1..]);
    }
  }

  /**
   * At the store, ILIKE with the escaped pattern of an already lower-cased
   * `x` selects exactly the rows whose text lower-cases to `x`. What the
   * store receives differs when `x` holds a `*` (`LookupSelects`).
   */
  lemma ILikeEscapedLowered(t: string, x: string)
    requires IsLowered(x)
    ensures ILike(t, EscapeLike(x)) <==> Lower(t) == x
  {
    LowerEscapeCommute(x);
    LoweredFixed(x);
    EscapedMatchesOnlyItself(Lower(t), x);
  }

  /**
   * The request layer between the code and the store (PostgREST's `like`
   * and `ilike` operators) reads `*` in a pattern as `%`. The escape above
   * leaves `*` alone, so every `*` of the text reaches the store as `%`.
   */
  function StarAsPercent(p: string): (r: string)
    ensures |r| == |p| && '*' !in r
    ensures forall i :: 0 <= i < |p| && p[i] != '*' ==> r[i] == p[i]
  {
    seq(|p|, i requires 0 <= i < |p| => if p[i] == '*' then '%' else p[i])
  }

  /** The pattern the store receives for the lookup of `s`. */
  function LookupPattern(s: string): string {
    StarAsPercent(EscapeLike(s))
  }

  /**
   * Glob matching, the independent reading of that pattern: a `*` of `s`
   * matches any run of characters, every other character matches itself.
   */
  function GlobMatch(t: string, s: string): bool
    decreases |t| + |s|
  {
    if s == [] then t == []
    else if s[0] == '*' then GlobMatch(t, s[1..]) || (|t| > 0 && GlobMatch(t[1..], s))
    else |t| > 0 && t[0] == s[0] && GlobMatch(t[1..], s[1..])
  }

  /** The lookup pattern of `s` matches, under LIKE, exactly what `s` matches as a glob. */
  lemma {:induction false} LookupPatternIsGlob(t: string, s: string)
    ensures LikeMatch(t, LookupPattern(s)) <==> GlobMatch(t, s)
    decreases |t| + |s|
  {
    if s != [] {
      var head := if IsLikeSpecial(s[0]) then ['\\', s[0]] else [s[0]];
      assert EscapeLike(s) == head + EscapeLike(s[1..]);
      var p := LookupPattern(s);
      assert p == StarAsPercent(head) + LookupPattern(s[1..]);
      if s[0] == '*' {
        assert p[0] == '%' && p[1..] == LookupPattern(s[1..]);
        LookupPatternIsGlob(t, s[1..]);
        if |t| > 0 {
          LookupPatternIsGlob(t[1..], s);
        }
      } else if IsLikeSpecial(s[0]) {
        assert p[0] == '\\' && p[1] == s[0] && p[2..] == LookupPattern(s[1..]);
        if |t| > 0 {
          LookupPatternIsGlob(t[1..], s[1..]);
        }
      } else {
        assert p[0] == s[0] && p[1..] == LookupPattern(s[1..]);
        if |t| > 0 {
          LookupPatternIsGlob(t[1..], s[1..]);
        }
      }
    }
  }

  /** Every text matches itself as a glob: a `*` can stand for itself. */
  lemma {:induction false} GlobMatchesItself(t: string)
    ensures GlobMatch(t, t)
    decreases |t|
  {
    if t != [] {
      GlobMatchesItself(t[1..]);
      if t[0] == '*' {
        assert GlobMatch(t[1..], t[1..]);
        assert GlobMatch(t[1..], t);
      }
    }
  }

  /** A glob that starts with `*` still matches after any text is put in front. */
  lemma {:induction false} GlobStarAbsorbs(prefix: string, t: string, s: string)
    requires s != [] && s[0] == '*' && GlobMatch(t, s)
    ensures GlobMatch(prefix + t, s)
    decreases |prefix|
  {
    if prefix == [] {
      assert prefix + t == t;
    } else {
      GlobStarAbsorbs(prefix[1..], t, s);
      assert (prefix + t)[1..] == prefix[1..] + t;
      assert |prefix + t| > 0 && GlobMatch((prefix + t)[1..], s);
    }
  }

  /** Without a `*`, a glob matches only itself. */
  lemma {:induction false} GlobWithoutStar(t: string, s: string)
    requires '*' !in s
    ensures GlobMatch(t, s) <==> t == s
    decreases |s|
  {
    if s != [] {
      assert s[0] != '*' && '*' !in s[1..];
      if |t| > 0 {
        GlobWithoutStar(t[1..], s[1..]);
        assert t == s <==> t[0] == s[0] && t[1..] == s[1..];
      }
    }
  }

  /**
   * The lookup the generator issues, `ilike('question', escape(x))` with `x`
   * already lower-cased, selects the rows whose lower-cased text matches `x`
   * read as a glob: always the rows whose lower-cased text is `x`, and
   * exactly those when `x` holds no `*`.
   */
  lemma LookupSelects(t: string, x: string)
    requires IsLowered(x)
    ensures ILike(t, LookupPattern(x)) <==> GlobMatch(Lower(t), x)
    ensures Lower(t) == x ==> ILike(t, LookupPattern(x))
    ensures '*' !in x ==> (ILike(t, LookupPattern(x)) <==> Lower(t) == x)
  {
    LowerEscapeCommute(x);
    LoweredFixed(x);
    var q := EscapeLike(x);
    assert Lower(q) == q;
    assert Lower(StarAsPercent(q)) == StarAsPercent(q) by {
      forall i | 0 <= i < |q| ensures Lower(StarAsPercent(q))[i] == StarAsPercent(q)[i] {
        assert LowerChar(q[i]) == q[i];
      }
    }
    LookupPatternIsGlob(Lower(t), x);
    if Lower(t) == x {
      GlobMatchesItself(x);
    }
    if '*' !in x {
      GlobWithoutStar(Lower(t), x);
    }
  }

  /** Removing the escapes gives back the original text. */
  function UnescapeLike(p: string): string {
    if |p| >= 2 && p[0] == '\\' then [p[1]] + UnescapeLike(p[2..])
    else if p == [] then []
    else [p[0]] + UnescapeLike(p[1..])
  }

  lemma {:induction false} UnescapeEscape(s: string)
    ensures UnescapeLike(EscapeLike(s)) == s
  {
    if s != [] {
      UnescapeEscape(s[1..]);
      var p := EscapeLike(s);
      if IsLikeSpecial(s[0]) {
        assert p[2..] == EscapeLike(s[1..]);
      } else {
        assert p[1..] == EscapeLike(s[1..]);
      }
    }
  }
}
