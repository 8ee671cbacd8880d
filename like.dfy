/** The name search binds the pattern `%term%` to `name ILIKE $1`. This
    module gives the matching rule that pattern is read with (PostgreSQL's
    LIKE, whose default escape character is the backslash), shows that the
    pattern finds exactly the names containing the term when the term has no
    wildcard in it, that a term with a wildcard matches names that do not
    contain it, and that escaping the term first restores substring search
    for every term. Case folding (the I of ILIKE) is not modelled. */
module LikePattern {
  import opened JsString

  /** `s LIKE p`: `%` matches any run of characters, `_` any single one, and
      a backslash makes the next character literal. A pattern that ends in a
      lone backslash matches nothing here (PostgreSQL rejects it). */
  function Like(s: string, p: string): bool
    decreases |s| + |p|
  {
    if p == "" then s == ""
    else if p[0] == '%' then Like(s, p[1..]) || (s != "" && Like(s[1..], p))
    else if p[0] == '_' then s != "" && Like(s[1..], p[1..])
    else if p[0] == '\\' then |p| >= 2 && s != "" && s[0] == p[1] && Like(s[1..], p[2..])
    else s != "" && s[0] == p[0] && Like(s[1..], p[1..])
  }

  predicate IsSpecial(c: char) { c == '%' || c == '_' || c == '\\' }

  /** The term contains no character that LIKE treats specially. */
  predicate Plain(t: string) { forall i :: 0 <= i < |t| ==> !IsSpecial(t[i]) }

  /** The pattern the search handler binds: the term between two `%`. */
  function SearchPattern(term: string): string {
    "%" + term + "%"
  }

  /** The parameter list of the search statement: the pattern is `$1`. */
  function SearchParams(term: string): seq<string> {
    [SearchPattern(term)]
  }

  /** Each special character of the term preceded by a backslash. */
  function Escape(t: string): string {
    if t == "" then ""
    else (if IsSpecial(t[0]) then ['\\', t[0]] else [t[0]]) + Escape(t[1..])
  }

  /** The pattern with the term escaped. */
  function EscapedSearchPattern(term: string): string {
    "%" + Escape(term) + "%"
  }

  // ---------------------------------------------------------------------

  /** A lone `%` matches every string. */
  lemma {:induction false} PercentMatchesAll(s: string)
    ensures Like(s, "%")
    decreases |s|
  {
    if s != "" {
      PercentMatchesAll(s[1..]);
    }
  }

  /** A leading `%` lets the rest of the pattern match any suffix. */
  lemma {:induction false} LeadingPercent(s: string, q: string)
    ensures Like(s, "%" + q) <==> exists k :: 0 <= k <= |s| && Like(s[k..], q)
    decreases |s|
  {
    var p := "%" + q;
    assert p[0] == '%' && p[1..] == q;
    assert s[0..] == s;
    if s != "" {
      LeadingPercent(s[1..], q);
      if Like(s[1..], p) {
        var k :| 0 <= k <= |s[1..]| && Like(s[1..][k..], q);
        assert s[1..][k..] == s[k + 1..];
      }
      if k :| 1 <= k <= |s| && Like(s[k..], q) {
        assert s[1..][k - 1..] == s[k..];
      }
    }
  }

  /** `s` starts with a non-empty `t` exactly when its first character is
      `t`'s first and the rest of `s` starts with the rest of `t`. */
  lemma StartsWithFirst(s: string, t: string)
    requires t != ""
    ensures StartsWith(s, t) <==> s != "" && s[0] == t[0] && StartsWith(s[1..], t[1..])
  {
    if s != "" && s[0] == t[0] && StartsWith(s[1..], t[1..]) {
      assert s[..|t|] == [s[0]] + s[1..][..|t| - 1];
    }
  }

  /** The escaped term followed by `%` matches exactly the strings that start
      with the term. */
  lemma {:induction false} EscapedPrefix(s: string, t: string)
    ensures Like(s, Escape(t) + "%") <==> StartsWith(s, t)
    decreases |t|
  {
    if t == "" {
      assert Escape(t) + "%" == "%";
      PercentMatchesAll(s);
    } else {
      var c := t[0];
      var rest := Escape(t[1..]) + "%";
      var p := Escape(t) + "%";
      StartsWithFirst(s, t);
      if s != "" {
        EscapedPrefix(s[1..], t[1..]);
      }
      if IsSpecial(c) {
        assert p == ['\\', c] + rest;
        assert p[0] == '\\' && p[1] == c && p[2..] == rest;
      } else {
        assert p == [c] + rest;
        assert p[0] == c && p[1..] == rest;
      }
    }
  }

  /** A plain term is its own escaped form. */
  lemma {:induction false} EscapePlain(t: string)
    requires Plain(t)
    ensures Escape(t) == t
    decreases |t|
  {
    if t != "" {
      EscapePlain(t[1..]);
    }
  }

  /** The escaped pattern matches exactly the names that contain the term. */
  lemma EscapedPatternIsSubstringSearch(name: string, term: string)
    ensures Like(name, EscapedSearchPattern(term)) <==> Includes(name, term)
  {
    var q := Escape(term) + "%";
    assert EscapedSearchPattern(term) == "%" + q;
    LeadingPercent(name, q);
    forall k | 0 <= k <= |name| ensures Like(name[k..], q) <==> OccursAt(name, term, k) {
      EscapedPrefix(name[k..], term);
      OccursAtIffSuffixStartsWith(name, term, k);
    }
    IncludesIff(name, term);
  }

  /** For a term without special characters the pattern the handler builds
      matches exactly the names that contain the term. */
  lemma PlainTermPatternIsSubstringSearch(name: string, term: string)
    requires Plain(term)
    ensures Like(name, SearchPattern(term)) <==> Includes(name, term)
  {
    EscapePlain(term);
    EscapedPatternIsSubstringSearch(name, term);
  }

  /** The handler does not escape the term: the term `_` matches the name
      "a", which does not contain `_`. */
  lemma UnescapedPatternOverMatches()
    ensures Like("a", SearchPattern("_"))
    ensures !Includes("a", "_")
  {
    assert SearchPattern("_") == "%_%";
    assert "%_%"[1..] == "_%";
    assert "_%"[1..] == "%";
    PercentMatchesAll("");
    MissingCharExcludes("a", "_", 0);
  }
}
