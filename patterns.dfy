/**
 * Criterion matching. A criterion is used as a search pattern over the text of
 * one field: it matches when it occurs somewhere in that text. The model gives
 * meaning to the two anchors the fixtures use, a leading `^` (the match must
 * start at the beginning of the field) and a trailing `$` (it must end at the
 * end of the field); every other character stands for itself.
 */
module Patterns {

  /** `body` occurs in `s` starting at index `i`. */
  ghost predicate OccursAt(body: string, s: string, i: int)
  {
    0 <= i && i + |body| <= |s| && s[i..i + |body|] == body
  }

  /** Plain substring search, scanning `s` from the left. */
  function Contains(s: string, body: string): bool
    decreases |s|
  {
    if |body| > |s| then false
    else if s[..|body|] == body then true
    else Contains(s[1..], body)
  }

  /** The scan finds `body` exactly when it occurs at some index of `s`. */
  lemma {:induction false} ContainsCorrect(s: string, body: string)
    ensures Contains(s, body) <==> exists i :: OccursAt(body, s, i)
    decreases |s|
  {
    if |body| > |s| {
    } else if s[..|body|] == body {
      assert OccursAt(body, s, 0);
    } else {
      ContainsCorrect(s[1..], body);
      if exists i :: OccursAt(body, s[1..], i) {
        var i :| OccursAt(body, s[1..], i);
        assert s[1..][i..i + |body|] == s[i + 1..i + 1 + |body|];
        assert OccursAt(body, s, i + 1);
      }
      if exists i :: OccursAt(body, s, i) {
        var i :| OccursAt(body, s, i);
        assert i != 0;
        assert s[1..][i - 1..i - 1 + |body|] == s[i..i + |body|];
        assert OccursAt(body, s[1..], i - 1);
      }
    }
  }

  /** A criterion split into its anchors and its literal text. */
  datatype Pattern = Pattern(atStart: bool, body: string, atEnd: bool)

  function Parse(p: string): Pattern
  {
    var atStart := |p| > 0 && p[0] == '^';
    var rest := if atStart then p[1..] else p;
    var atEnd := |rest| > 0 && rest[|rest| - 1] == '$';
    Pattern(atStart, if atEnd then rest[..|rest| - 1] else rest, atEnd)
  }

  function Render(pat: Pattern): string
  {
    (if pat.atStart then "^" else "") + pat.body + (if pat.atEnd then "$" else "")
  }

  /** Parsing loses nothing: the criterion is recovered from its parts. */
  lemma ParseRender(p: string)
    ensures Render(Parse(p)) == p
  {
    var pat := Parse(p);
    var rest := if pat.atStart then p[1..] else p;
    assert (if pat.atEnd then pat.body + "$" else pat.body) == rest;
    if pat.atStart {
      assert p == "^" + rest;
    }
  }

  /** A match of `pat` at index `i` of `s` that respects its anchors. */
  ghost predicate MatchesAt(pat: Pattern, s: string, i: int)
  {
    OccursAt(pat.body, s, i)
    && (pat.atStart ==> i == 0)
    && (pat.atEnd ==> i + |pat.body| == |s|)
  }

  /** Search semantics: true exactly when the criterion matches somewhere in `s`. */
  function Search(p: string, s: string): (r: bool)
    ensures r <==> exists i :: MatchesAt(Parse(p), s, i)
  {
    var pat := Parse(p);
    var n := |pat.body|;
    if pat.atStart && pat.atEnd then
      assert s == pat.body ==> MatchesAt(pat, s, 0);
      s == pat.body
    else if pat.atStart then
      assert n <= |s| && s[..n] == pat.body ==> MatchesAt(pat, s, 0);
      n <= |s| && s[..n] == pat.body
    else if pat.atEnd then
      assert n <= |s| && s[|s| - n..] == pat.body ==> MatchesAt(pat, s, |s| - n);
      n <= |s| && s[|s| - n..] == pat.body
    else
      ContainsCorrect(s, pat.body);
      assert forall i :: MatchesAt(pat, s, i) <==> OccursAt(pat.body, s, i);
      Contains(s, pat.body)
  }

  /** A text the criterion matches contains every character of the criterion's literal part. */
  lemma MatchHasEveryCharacter(p: string, s: string, j: int)
    requires 0 <= j < |Parse(p).body|
    ensures Search(p, s) ==> Parse(p).body[j] in s
  {
    if Search(p, s) {
      var body := Parse(p).body;
      var i :| MatchesAt(Parse(p), s, i);
      assert s[i + j] == s[i..i + |body|][j];
    }
  }
}
