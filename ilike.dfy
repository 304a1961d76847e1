/** The `ilike` filter of the search endpoint: SQL `ILIKE` pattern matching, where `%` matches
    any run of characters, `_` any single character and a backslash makes the next pattern
    character literal, with case ignored. */
module Like {

  /** Case folding of one character (ASCII letters only). */
  function Lower(c: char): char
  {
    if 'A' <= c <= 'Z' then (c as int + 32) as char else c
  }

  predicate SameLetter(a: char, b: char) { Lower(a) == Lower(b) }

  /** The characters that `ILIKE` does not take literally. */
  predicate IsWildcard(c: char) { c == '%' || c == '_' || c == '\\' }

  /** A search term in which every character stands for itself. */
  predicate Literal(t: string) { forall k :: 0 <= k < |t| ==> !IsWildcard(t[k]) }

  /** `s ILIKE p`. A pattern without wildcards matches exactly the texts that equal it,
      ignoring case. */
  predicate ILike(s: string, p: string)
    decreases |p|, |s|
    ensures Literal(p) ==> (ILike(s, p) <==> |s| == |p| && OccursAt(s, p, 0))
  {
    if p == [] then s == []
    else if p[0] == '%' then ILike(s, p[1..]) || (s != [] && ILike(s[1..], p))
    else if p[0] == '_' then s != [] && ILike(s[1..], p[1..])
    else if p[0] == '\\' && |p| >= 2 then s != [] && SameLetter(s[0], p[1]) && ILike(s[1..], p[2..])
    // a backslash that ends the pattern: cannot occur in a pattern that ends in '%'
    else s != [] && SameLetter(s[0], p[0]) && ILike(s[1..], p[1..])
  }

  /** `t` occurs in `s` at position `i`, ignoring case. */
  predicate OccursAt(s: string, t: string, i: int)
  {
    0 <= i && i + |t| <= |s| && forall k :: 0 <= k < |t| ==> SameLetter(s[i + k], t[k])
  }

  /** `t` is a substring of `s`, ignoring case. */
  predicate ContainsIgnoringCase(s: string, t: string)
  {
    exists i :: 0 <= i <= |s| && OccursAt(s, t, i)
  }

  /** The pattern the search endpoint builds: the term between two `%` wildcards. */
  function Pattern(term: string): string { "%" + term + "%" }

  /** `term` with a backslash in front of every wildcard, so that `ILIKE` takes it literally. */
  function EscapeTerm(term: string): (e: string)
    ensures Literal(term) ==> e == term
  {
    if term == [] then []
    else
      assert Literal(term) ==> Literal(term[1..]) by {
        if Literal(term) {
          forall k | 0 <= k < |term| - 1 ensures !IsWildcard(term[1..][k]) {
            assert term[1..][k] == term[k + 1];
          }
        }
      }
      assert term == [term[0]] + term[1..];
      (if IsWildcard(term[0]) then ['\\', term[0]] else [term[0]]) + EscapeTerm(term[1..])
  }

  /** A lone `%` matches every string. */
  lemma {:induction false} PercentMatchesAll(s: string)
    ensures ILike(s, "%")
  {
    assert "%"[1..] == [];
    if s != [] {
      PercentMatchesAll(s[1..]);
    }
  }

  /** An escaped term followed by `%` matches exactly the strings that start with the term. */
  lemma {:induction false} EscapedPrefix(s: string, term: string)
    ensures ILike(s, EscapeTerm(term) + "%") <==> OccursAt(s, term, 0)
  {
    var p := EscapeTerm(term) + "%";
    if term == [] {
      assert p == "%";
      PercentMatchesAll(s);
    } else {
      var rest := EscapeTerm(term[1..]) + "%";
      EscapedPrefix(if s == [] then s else s[1..], term[1..]);
      if IsWildcard(term[0]) {
        assert p == ['\\', term[0]] + rest;
        assert p[0] == '\\' && p[1] == term[0] && p[2..] == rest;
      } else {
        assert p == [term[0]] + rest;
        assert p[0] == term[0] && p[1..] == rest;
      }
      if s != [] {
        assert OccursAt(s, term, 0) <==> SameLetter(s[0], term[0]) && OccursAt(s[1..], term[1..], 0) by {
          if SameLetter(s[0], term[0]) && OccursAt(s[1..], term[1..], 0) {
            forall k | 0 <= k < |term| ensures SameLetter(s[k], term[k]) {
              if k > 0 {
                assert s[1..][k - 1] == s[k] && term[1..][k - 1] == term[k];
              }
            }
          }
          if OccursAt(s, term, 0) {
            forall k | 0 <= k < |term| - 1 ensures SameLetter(s[1..][k], term[1..][k]) {
              assert SameLetter(s[k + 1], term[k + 1]);
            }
          }
        }
      }
    }
  }

  /** A leading `%` lets the rest of the pattern match any suffix. */
  lemma {:induction false} LeadingPercent(s: string, q: string)
    ensures ILike(s, "%" + q) <==> exists i :: 0 <= i <= |s| && ILike(s[i..], q)
  {
    var p := "%" + q;
    assert p[0] == '%' && p[1..] == q;
    if s == [] {
      if ILike(s, p) {
        assert ILike(s[0..], q);
      }
    } else {
      LeadingPercent(s[1..], q);
      if ILike(s, p) {
        if ILike(s, q) {
          assert ILike(s[0..], q);
        } else {
          var i :| 0 <= i <= |s| - 1 && ILike(s[1..][i..], q);
          assert s[1..][i..] == s[i + 1..];
        }
      }
      if exists i :: 0 <= i <= |s| && ILike(s[i..], q) {
        var i :| 0 <= i <= |s| && ILike(s[i..], q);
        if i == 0 {
          assert s[0..] == s;
        } else {
          assert s[1..][i - 1..] == s[i..];
        }
      }
    }
  }

  /** An occurrence at `i` is an occurrence at the front of the suffix from `i`. */
  lemma OccursInSuffix(s: string, t: string, i: nat)
    requires i <= |s|
    ensures OccursAt(s[i..], t, 0) <==> OccursAt(s, t, i)
  {
    if OccursAt(s, t, i) {
      forall k | 0 <= k < |t| ensures SameLetter(s[i..][k], t[k]) {
        assert s[i..][k] == s[i + k];
      }
    }
  }

  /** With its wildcards escaped, the search pattern selects exactly the texts that contain
      the term, ignoring case. */
  lemma EscapedPatternIsSubstring(s: string, term: string)
    ensures ILike(s, Pattern(EscapeTerm(term))) <==> ContainsIgnoringCase(s, term)
  {
    var q := EscapeTerm(term) + "%";
    assert Pattern(EscapeTerm(term)) == "%" + q;
    LeadingPercent(s, q);
    forall i | 0 <= i <= |s| ensures ILike(s[i..], q) <==> OccursAt(s, term, i) {
      EscapedPrefix(s[i..], term);
      OccursInSuffix(s, term, i);
    }
    if ContainsIgnoringCase(s, term) {
      var i :| 0 <= i <= |s| && OccursAt(s, term, i);
      assert ILike(s[i..], q);
    }
  }

  /** For a term without `%`, `_` or backslash, the search pattern as the endpoint builds it
      selects exactly the texts that contain the term, ignoring case. */
  lemma LiteralPatternIsSubstring(s: string, term: string)
    requires Literal(term)
    ensures ILike(s, Pattern(term)) <==> ContainsIgnoringCase(s, term)
  {
    EscapedPatternIsSubstring(s, term);
  }

  /** Unescaped, the term `_` matches a text that does not contain an underscore. */
  lemma UnderscoreIsWildcard()
    ensures ILike("Who?", Pattern("_"))
    ensures !ContainsIgnoringCase("Who?", "_")
  {
    var p := Pattern("_");
    assert p == "%_%" && p[1..] == "_%" && p[2..] == "%";
    PercentMatchesAll("ho?");
    assert "Who?"[1..] == "ho?";
    assert ILike("Who?", "_%");
  }
}
