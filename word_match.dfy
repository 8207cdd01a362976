/** Whole-word, case-insensitive search: what `new RegExp('\\b' + w + '\\b', 'i').test(s)`
    answers when `w` is a literal keyword (its regular-expression
    metacharacters escaped) made of ASCII characters. `\b` is the position
    between a word character `[A-Za-z0-9_]` and a non-word character, the
    ends of the string counting as non-word. */
module WordMatch {
  import opened Text

  predicate IsWordChar(c: char)
  {
    'a' <= c <= 'z' || 'A' <= c <= 'Z' || '0' <= c <= '9' || c == '_'
  }

  /** `\b` at position `p` (between `s[p - 1]` and `s[p]`). */
  predicate BoundaryAt(s: string, p: nat)
    requires p <= |s|
  {
    (0 < p && IsWordChar(s[p - 1])) != (p < |s| && IsWordChar(s[p]))
  }

  /** The pattern matches with its first character at `p`. */
  predicate MatchesAt(s: string, w: string, p: nat)
  {
    p + |w| <= |s| && BoundaryAt(s, p) && FoldEqStr(s[p..p + |w|], w) && BoundaryAt(s, p + |w|)
  }

  /** The meaning of the test: some position matches. */
  predicate WordOccurs(s: string, w: string)
  {
    exists p :: 0 <= p <= |s| && MatchesAt(s, w, p)
  }

  /** The scan `RegExp.prototype.test` performs: try each start position
      from `from` onwards until one matches. */
  function Search(s: string, w: string, from: nat): (found: bool)
    decreases |s| + 1 - from
  {
    if from > |s| then false
    else MatchesAt(s, w, from) || Search(s, w, from + 1)
  }

  /** The scan finds a match from `from` on exactly when one exists. */
  lemma {:induction false} SearchFindsMatch(s: string, w: string, from: nat)
    ensures Search(s, w, from) <==> exists p :: from <= p <= |s| && MatchesAt(s, w, p)
    decreases |s| + 1 - from
  {
    if from <= |s| {
      SearchFindsMatch(s, w, from + 1);
      if !MatchesAt(s, w, from) && exists p :: from <= p <= |s| && MatchesAt(s, w, p) {
        var p :| from <= p <= |s| && MatchesAt(s, w, p);
        assert from + 1 <= p;
      }
    }
  }

  /** `regex.test(s)`: a scan from the start of the string. */
  function Test(s: string, w: string): (found: bool)
    ensures found <==> WordOccurs(s, w)
  {
    SearchFindsMatch(s, w, 0);
    Search(s, w, 0)
  }

  /** The empty string has no word boundary, so nothing occurs in it as a word. */
  lemma NothingOccursInEmpty(w: string)
    ensures !Test("", w)
  {
    assert !BoundaryAt("", 0);
  }

  lemma LowerCharKeepsWordness(c: char)
    ensures IsWordChar(LowerChar(c)) == IsWordChar(c)
    ensures FoldEq(LowerChar(c), c)
  {
  }

  /** Lower-casing the subject first does not change what a case-insensitive
      whole-word test finds. */
  lemma {:induction false} LowerCasingKeepsMatches(s: string, w: string)
    ensures WordOccurs(ToLower(s), w) <==> WordOccurs(s, w)
  {
    var t := ToLower(s);
    forall p | 0 <= p <= |s|
      ensures MatchesAt(t, w, p) <==> MatchesAt(s, w, p)
    {
      forall k | 0 <= k < |s| ensures IsWordChar(t[k]) == IsWordChar(s[k]) && FoldEq(t[k], s[k]) {
        LowerCharKeepsWordness(s[k]);
      }
      if p + |w| <= |s| {
        assert FoldEqStr(t[p..p + |w|], w) <==> FoldEqStr(s[p..p + |w|], w);
      }
    }
    if WordOccurs(s, w) {
      var p :| 0 <= p <= |s| && MatchesAt(s, w, p);
      assert MatchesAt(t, w, p);
    }
    if WordOccurs(t, w) {
      var p :| 0 <= p <= |t| && MatchesAt(t, w, p);
      assert MatchesAt(s, w, p);
    }
  }
}
