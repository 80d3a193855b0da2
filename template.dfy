/**
 * Textual placeholder substitution as Python's `str.replace` performs it: a
 * left-to-right scan that replaces each non-overlapping occurrence of the
 * pattern. Queries are built by replacing `<URI>` with the bracketed target URI.
 */
module Template {

  /** The placeholder the query templates carry. */
  const Placeholder: string := "<URI>"

  /** `pat` occurs in `s` starting at index `i`. */
  predicate OccursAt(s: string, pat: string, i: int)
  {
    0 <= i && i + |pat| <= |s| && s[i..i + |pat|] == pat
  }

  /** `pat` occurs nowhere in `s`. */
  predicate Free(s: string, pat: string)
  {
    forall i | 0 <= i <= |s| :: !OccursAt(s, pat, i)
  }

  /** The first character of `pat` does not occur again in it, so two occurrences cannot overlap. */
  predicate SelfDisjoint(pat: string)
  {
    pat != [] && pat[0] !in pat[1..]
  }

  /** `s.replace(pat, rep)` for a non-empty `pat`. */
  function ReplaceAll(s: string, pat: string, rep: string): string
    requires pat != []
    decreases |s|
  {
    if |s| < |pat| then s
    else if s[..|pat|] == pat then rep + ReplaceAll(s[|pat|..], pat, rep)
    else [s[0]] + ReplaceAll(s[1..], pat, rep)
  }

  /** `s.split(pat)`: the text between the occurrences that `ReplaceAll` finds. */
  function Split(s: string, pat: string): (parts: seq<string>)
    requires pat != []
    ensures |parts| >= 1
    decreases |s|
  {
    if |s| < |pat| then [s]
    else if s[..|pat|] == pat then [[]] + Split(s[|pat|..], pat)
    else
      var rest := Split(s[1..], pat);
      [[s[0]] + rest[0]] + rest[1..]
  }

  /** `sep.join(parts)`. */
  function Join(parts: seq<string>, sep: string): string
  {
    if |parts| == 0 then []
    else if |parts| == 1 then parts[0]
    else parts[0] + sep + Join(parts[1..], sep)
  }

  /** The query text sent for `uri`: every `<URI>` in `template` becomes `<` + uri + `>`. */
  function Substitute(template: string, uri: string): string
  {
    ReplaceAll(template, Placeholder, "<" + uri + ">")
  }

  lemma JoinPrepend(c: char, parts: seq<string>, sep: string)
    requires |parts| >= 1
    ensures Join([[c] + parts[0]] + parts[1..], sep) == [c] + Join(parts, sep)
  {
    var q := [[c] + parts[0]] + parts[1..];
    if |parts| > 1 {
      assert q[1..] == parts[1..];
    }
  }

  /** Replacing is splitting at the occurrences and joining the pieces with the replacement. */
  lemma {:induction false} ReplaceIsJoinOfSplit(s: string, pat: string, rep: string)
    requires pat != []
    ensures ReplaceAll(s, pat, rep) == Join(Split(s, pat), rep)
    decreases |s|
  {
    if |s| < |pat| {
    } else if s[..|pat|] == pat {
      ReplaceIsJoinOfSplit(s[|pat|..], pat, rep);
      var rest := Split(s[|pat|..], pat);
      assert ([[]] + rest)[1..] == rest;
    } else {
      ReplaceIsJoinOfSplit(s[1..], pat, rep);
      JoinPrepend(s[0], Split(s[1..], pat), rep);
    }
  }

  /** Replacing a pattern by itself changes nothing. */
  lemma {:induction false} ReplaceBySelf(s: string, pat: string)
    requires pat != []
    ensures ReplaceAll(s, pat, pat) == s
    decreases |s|
  {
    if |s| < |pat| {
    } else if s[..|pat|] == pat {
      ReplaceBySelf(s[|pat|..], pat);
      assert s == s[..|pat|] + s[|pat|..];
    } else {
      ReplaceBySelf(s[1..], pat);
      assert s == [s[0]] + s[1..];
    }
  }

  /** Splitting and joining again with the same pattern gives back the original text. */
  lemma SplitJoin(s: string, pat: string)
    requires pat != []
    ensures Join(Split(s, pat), pat) == s
  {
    ReplaceIsJoinOfSplit(s, pat, pat);
    ReplaceBySelf(s, pat);
  }

  lemma FreeTail(c: char, s: string, pat: string)
    requires Free([c] + s, pat)
    ensures Free(s, pat)
  {
    forall i | 0 <= i <= |s|
      ensures !OccursAt(s, pat, i)
    {
      if i + |pat| <= |s| {
        assert ([c] + s)[i + 1..i + 1 + |pat|] == s[i..i + |pat|];
        assert !OccursAt([c] + s, pat, i + 1);
      }
    }
  }

  /** No piece produced by `Split` contains the pattern. */
  lemma {:induction false} SplitPartsFree(s: string, pat: string)
    requires pat != []
    ensures forall k | 0 <= k < |Split(s, pat)| :: Free(Split(s, pat)[k], pat)
    decreases |s|
  {
    var parts := Split(s, pat);
    if |s| < |pat| {
      assert parts == [s];
      forall i | 0 <= i <= |s| ensures !OccursAt(s, pat, i) { }
    } else if s[..|pat|] == pat {
      SplitPartsFree(s[|pat|..], pat);
      var rest := Split(s[|pat|..], pat);
      assert parts == [[]] + rest;
      forall k | 0 <= k < |parts| ensures Free(parts[k], pat) {
        if k > 0 { assert parts[k] == rest[k - 1]; }
      }
    } else {
      SplitPartsFree(s[1..], pat);
      var rest := Split(s[1..], pat);
      assert parts == [[s[0]] + rest[0]] + rest[1..];
      SplitJoin(s[1..], pat);
      JoinStartsWithFirst(rest, pat);
      assert s == [s[0]] + s[1..];
      ConsFree(s[0], rest[0], s, pat);
      forall k | 0 <= k < |parts| ensures Free(parts[k], pat) {
        if k > 0 { assert parts[k] == rest[k]; }
      }
    }
  }

  /** A character put before pattern-free text `t` keeps it free when the text they start does not start with the pattern. */
  lemma ConsFree(c: char, t: string, s: string, pat: string)
    requires pat != [] && Free(t, pat)
    requires |t| + 1 <= |s| && s[..|t| + 1] == [c] + t
    requires |s| >= |pat| && s[..|pat|] != pat
    ensures Free([c] + t, pat)
  {
    var head := [c] + t;
    forall i | 0 <= i <= |head| ensures !OccursAt(head, pat, i) {
      if i == 0 {
        if |pat| <= |head| {
          assert s[..|pat|] == head[..|pat|];
        }
      } else if i + |pat| <= |head| {
        assert head[i..i + |pat|] == t[i - 1..i - 1 + |pat|];
        assert !OccursAt(t, pat, i - 1);
      }
    }
  }

  lemma JoinStartsWithFirst(parts: seq<string>, sep: string)
    requires |parts| >= 1
    ensures |parts[0]| <= |Join(parts, sep)|
    ensures Join(parts, sep) == parts[0] + Join(parts, sep)[|parts[0]|..]
  {
  }

  /** A text without the pattern is left as it is. */
  lemma {:induction false} ReplaceFree(s: string, pat: string, rep: string)
    requires pat != [] && Free(s, pat)
    ensures ReplaceAll(s, pat, rep) == s
    decreases |s|
  {
    if |s| >= |pat| {
      assert !OccursAt(s, pat, 0);
      assert s == [s[0]] + s[1..];
      FreeTail(s[0], s[1..], pat);
      ReplaceFree(s[1..], pat, rep);
    }
  }

  /** A self-disjoint pattern cannot start inside pattern-free text that an occurrence follows. */
  lemma NoMatchAcross(p: string, s: string, pat: string)
    requires SelfDisjoint(pat) && Free(p, pat) && p != []
    requires |pat| <= |s| && s[..|pat|] == pat
    ensures (p + s)[..|pat|] != pat
  {
    var t := p + s;
    assert !OccursAt(p, pat, 0);
    if |p| >= |pat| {
      assert p[..|pat|] == t[..|pat|];
    } else {
      assert t[..|pat|][|p|] == s[0] == pat[0];
      assert pat[1..][|p| - 1] == pat[|p|];
      assert pat[|p|] != pat[0];
    }
  }

  lemma ReplaceStep(t: string, pat: string, rep: string)
    requires pat != [] && |pat| <= |t| && t[..|pat|] != pat
    ensures ReplaceAll(t, pat, rep) == [t[0]] + ReplaceAll(t[1..], pat, rep)
  {
  }

  /**
   * Text free of the pattern, followed by an occurrence of it: the scan crosses
   * the free text unchanged. This needs the pattern to be self-disjoint.
   */
  lemma {:induction false} ReplaceSkipsFree(p: string, s: string, pat: string, rep: string)
    requires SelfDisjoint(pat) && Free(p, pat)
    requires |pat| <= |s| && s[..|pat|] == pat
    ensures ReplaceAll(p + s, pat, rep) == p + ReplaceAll(s, pat, rep)
    decreases |p|
  {
    if p != [] {
      var t := p + s;
      NoMatchAcross(p, s, pat);
      ReplaceStep(t, pat, rep);
      var p' := p[1..];
      assert t[1..] == p' + s;
      assert p == [p[0]] + p';
      FreeTail(p[0], p', pat);
      ReplaceSkipsFree(p', s, pat, rep);
      calc {
        ReplaceAll(t, pat, rep);
        [p[0]] + ReplaceAll(p' + s, pat, rep);
        [p[0]] + (p' + ReplaceAll(s, pat, rep));
        p + ReplaceAll(s, pat, rep);
      }
    } else {
      assert p + s == s;
    }
  }

  /**
   * Joining pattern-free pieces with the pattern and then replacing gives the
   * pieces joined with the replacement: every occurrence is replaced and all
   * other text is kept, in order.
   */
  lemma {:induction false} ReplaceJoin(parts: seq<string>, pat: string, rep: string)
    requires SelfDisjoint(pat)
    requires forall k | 0 <= k < |parts| :: Free(parts[k], pat)
    ensures ReplaceAll(Join(parts, pat), pat, rep) == Join(parts, rep)
    decreases |parts|
  {
    if |parts| == 1 {
      ReplaceFree(parts[0], pat, rep);
    } else if |parts| > 1 {
      var tail := Join(parts[1..], pat);
      var s := pat + tail;
      assert Join(parts, pat) == parts[0] + s;
      ReplaceSkipsFree(parts[0], s, pat, rep);
      assert s[..|pat|] == pat && s[|pat|..] == tail;
      ReplaceJoin(parts[1..], pat, rep);
    }
  }

  lemma PlaceholderSelfDisjoint()
    ensures SelfDisjoint(Placeholder)
  {
    assert Placeholder[1..] == "URI>";
  }

  /**
   * The query text is the template's placeholder-free pieces, in order, joined
   * by the bracketed URI; those pieces join with `<URI>` back to the template.
   */
  lemma SubstituteSpec(template: string, uri: string)
    ensures var parts := Split(template, Placeholder);
      && Join(parts, Placeholder) == template
      && (forall k | 0 <= k < |parts| :: Free(parts[k], Placeholder))
      && Substitute(template, uri) == Join(parts, "<" + uri + ">")
  {
    SplitJoin(template, Placeholder);
    SplitPartsFree(template, Placeholder);
    ReplaceIsJoinOfSplit(template, Placeholder, "<" + uri + ">");
  }

  /** Whatever pattern-free pieces a template is made of, substitution replaces exactly the joints. */
  lemma SubstituteJoin(parts: seq<string>, uri: string)
    requires forall k | 0 <= k < |parts| :: Free(parts[k], Placeholder)
    ensures Substitute(Join(parts, Placeholder), uri) == Join(parts, "<" + uri + ">")
  {
    PlaceholderSelfDisjoint();
    ReplaceJoin(parts, Placeholder, "<" + uri + ">");
  }

  /** A template without a placeholder is sent unchanged. */
  lemma SubstituteWithoutPlaceholder(template: string, uri: string)
    requires Free(template, Placeholder)
    ensures Substitute(template, uri) == template
  {
    ReplaceFree(template, Placeholder, "<" + uri + ">");
  }
}
