/** `extractFeatures` of the project detail page: the sentences of a
    free-text project description that read like achievements (they contain
    an action verb), tidied into bullet points: one leading conjunction or
    preposition dropped, white space collapsed, first letter capitalised, a
    full stop added, 25 to 200 characters, no repeats, and at most the 8
    longest. */
module FeatureExtraction {
  import opened Wrappers
  import opened Text
  import opened WordMatch
  import opened Collections
  import opened StableSort

  /** The characters of the sentence separator `/[.!?]+/`. */
  predicate IsTerminal(c: char) { c == '.' || c == '!' || c == '?' }

  predicate NoTerminal(s: string)
  {
    forall k :: 0 <= k < |s| ==> !IsTerminal(s[k])
  }

  /** Length of the longest prefix without a separator character. */
  function PieceEnd(s: string): (n: nat)
    ensures n <= |s|
  {
    if s == [] || IsTerminal(s[0]) then 0 else PieceEnd(s[1..]) + 1
  }

  /** The prefix before `PieceEnd` is clean and the character at it, if any,
      is a separator. */
  lemma {:induction false} PieceEndFacts(s: string)
    ensures NoTerminal(s[..PieceEnd(s)])
    ensures PieceEnd(s) < |s| ==> IsTerminal(s[PieceEnd(s)])
  {
    if s != [] && !IsTerminal(s[0]) {
      PieceEndFacts(s[1..]);
      assert s[..PieceEnd(s)] == [s[0]] + s[1..][..PieceEnd(s[1..])];
    }
  }

  /** `s` after the run of separator characters at its front. */
  function SkipTerminals(s: string): (r: string)
    ensures |r| <= |s|
  {
    if s != [] && IsTerminal(s[0]) then SkipTerminals(s[1..]) else s
  }

  /** `s.split(/[.!?]+/)`: the pieces between maximal runs of separator
      characters, including the empty piece before a leading run and after
      a trailing one. */
  function Split(s: string): (pieces: seq<string>)
    ensures |pieces| >= 1
    decreases |s|
  {
    var n := PieceEnd(s);
    if n == |s| then [s]
    else [s[..n]] + Split(SkipTerminals(s[n + 1..]))
  }

  function Concat(pieces: seq<string>): string
  {
    if pieces == [] then [] else pieces[0] + Concat(pieces[1..])
  }

  /** `s` without its separator characters. */
  function WithoutTerminals(s: string): (r: string)
    ensures NoTerminal(r)
  {
    if s == [] then []
    else (if IsTerminal(s[0]) then [] else [s[0]]) + WithoutTerminals(s[1..])
  }

  lemma {:induction false} WithoutTerminalsConcat(a: string, b: string)
    ensures WithoutTerminals(a + b) == WithoutTerminals(a) + WithoutTerminals(b)
    decreases |a|
  {
    if a == [] {
      assert a + b == b;
    } else {
      assert (a + b)[1..] == a[1..] + b;
      WithoutTerminalsConcat(a[1..], b);
    }
  }

  lemma {:induction false} WithoutTerminalsKeepsClean(s: string)
    requires NoTerminal(s)
    ensures WithoutTerminals(s) == s
    decreases |s|
  {
    if s != [] {
      WithoutTerminalsKeepsClean(s[1..]);
      assert s == [s[0]] + s[1..];
    }
  }

  lemma {:induction false} WithoutTerminalsDropsRun(s: string)
    ensures WithoutTerminals(s) == WithoutTerminals(SkipTerminals(s))
    decreases |s|
  {
    if s != [] && IsTerminal(s[0]) {
      WithoutTerminalsDropsRun(s[1..]);
    }
  }

  /** Dropping separators from `s`: the clean prefix, then what follows the
      separator run. */
  lemma WithoutTerminalsStep(s: string)
    requires PieceEnd(s) < |s|
    ensures WithoutTerminals(s) == s[..PieceEnd(s)] + WithoutTerminals(SkipTerminals(s[PieceEnd(s) + 1..]))
  {
    var n := PieceEnd(s);
    PieceEndFacts(s);
    assert s == s[..n] + ([s[n]] + s[n + 1..]);
    WithoutTerminalsConcat(s[..n], [s[n]] + s[n + 1..]);
    WithoutTerminalsConcat([s[n]], s[n + 1..]);
    WithoutTerminalsKeepsClean(s[..n]);
    WithoutTerminalsDropsRun(s[n + 1..]);
    assert WithoutTerminals([s[n]]) == [];
  }

  /** Splitting loses exactly the separator characters: the pieces, put
      back together, are the description without its separators. */
  lemma {:induction false} SplitLosesOnlySeparators(s: string)
    ensures Concat(Split(s)) == WithoutTerminals(s)
    decreases |s|
  {
    var n := PieceEnd(s);
    if n == |s| {
      PieceEndFacts(s);
      assert s[..n] == s;
      WithoutTerminalsKeepsClean(s);
      assert Concat([s]) == s + Concat([]);
    } else {
      var rest := SkipTerminals(s[n + 1..]);
      SplitLosesOnlySeparators(rest);
      assert Split(s)[1..] == Split(rest);
      WithoutTerminalsStep(s);
    }
  }

  /** `.filter(s => s.trim().length > 15)`. */
  function LongPieces(pieces: seq<string>): seq<string>
  {
    if pieces == [] then []
    else
      var last := pieces[|pieces| - 1];
      LongPieces(pieces[..|pieces| - 1]) + (if |Trim(last)| > 15 then [last] else [])
  }

  /** The filter keeps exactly the pieces whose trimmed form is longer than
      15 characters. */
  lemma {:induction false} LongPiecesMembership(pieces: seq<string>)
    ensures forall x :: x in LongPieces(pieces) <==> x in pieces && |Trim(x)| > 15
  {
    if pieces != [] {
      var init := pieces[..|pieces| - 1];
      LongPiecesMembership(init);
      assert pieces == init + [pieces[|pieces| - 1]];
    }
  }

  /** The sentences the loop visits. */
  function Sentences(description: string): seq<string>
  {
    LongPieces(Split(description))
  }

  const ActionVerbs: seq<string> :=
    [ "designed", "developed", "built", "created", "implemented", "integrated",
      "migrated", "refactored", "optimized", "configured", "delivered",
      "translated", "worked on", "leading", "overseeing", "coordinating",
      "managing", "streamlining", "ensuring", "leveraging", "adhering to",
      "focusing on", "added", "reduced", "improved", "enhanced", "maintaining",
      "prioritizing", "deployed", "processing", "implemented", "built" ]

  /** `actionVerbs.some(verb => new RegExp('\\b' + verb + '\\b', 'i').test(trimmed))`. */
  predicate HasActionVerb(t: string, verbs: seq<string>)
  {
    exists i :: 0 <= i < |verbs| && Test(t, verbs[i])
  }

  /** The alternatives of `/^(?:and|or|...|to)\s+/i`. */
  const LeadWords: seq<string> :=
    ["and", "or", "but", "with", "using", "via", "through", "by", "for", "in", "on", "at", "to"]

  /** The two word lists the extraction consults: the action verbs and the
      leading words it strips. */
  datatype Vocabulary = Vocabulary(verbs: seq<string>, leads: seq<string>)

  /** The lists of the project detail page. */
  const SiteVocabulary: Vocabulary := Vocabulary(ActionVerbs, LeadWords)

  /** `t` starts with `w`, in any letter case, followed by white space. */
  predicate LeadsWith(t: string, w: string)
  {
    |w| < |t| && FoldEqStr(t[..|w|], w) && IsJsSpace(t[|w|])
  }

  /** The first alternative of `words` that matches at the front of `t`,
      with the white space after it, removed; `t` itself when none does. */
  function StripLeadWord(t: string, words: seq<string>): string
  {
    if words == [] then t
    else if LeadsWith(t, words[0]) then TrimStart(t[|words[0]|..])
    else StripLeadWord(t, words[1..])
  }

  /** At most one leading word is removed: the result is `t` when no
      alternative matches, and otherwise `t` after one matching alternative
      and the white space following it. */
  lemma {:induction false} StripLeadWordFacts(t: string, words: seq<string>)
    ensures var r := StripLeadWord(t, words);
      |r| <= |t| && r == t[|t| - |r|..] &&
      ((forall i :: 0 <= i < |words| ==> !LeadsWith(t, words[i])) ==> r == t) &&
      (r != t ==> exists i :: 0 <= i < |words| && LeadsWith(t, words[i]) && r == TrimStart(t[|words[i]|..]))
  {
    if words != [] && !LeadsWith(t, words[0]) {
      StripLeadWordFacts(t, words[1..]);
      assert forall i :: 1 <= i < |words| ==> words[i] == words[1..][i - 1];
    }
  }

  /** No white space other than single blanks between non-blanks. */
  predicate Tidy(s: string)
  {
    forall k :: 0 <= k < |s| && IsJsSpace(s[k]) ==> s[k] == ' ' && (k + 1 < |s| ==> !IsJsSpace(s[k + 1]))
  }

  /** What `s.replace(/\s+/g, ' ')` writes for the first character of `s`:
      the character itself, nothing for white space followed by more white
      space, and one blank for the white space that ends a run. */
  function Piece(s: string): string
    requires s != []
  {
    if !IsJsSpace(s[0]) then [s[0]]
    else if |s| > 1 && IsJsSpace(s[1]) then []
    else " "
  }

  /** The replacement as a left-to-right scan: `out` is what has been
      written so far. */
  function CollapseInto(out: string, s: string): string
    decreases |s|
  {
    if s == [] then out else CollapseInto(out + Piece(s), s[1..])
  }

  /** `s.replace(/\s+/g, ' ')`: every run of white space becomes one blank. */
  function CollapseSpace(s: string): string
  {
    CollapseInto([], s)
  }

  lemma {:induction false} CollapseIntoAppends(out: string, s: string)
    ensures CollapseInto(out, s) == out + CollapseSpace(s)
    decreases |s|
  {
    if s == [] {
      assert out + [] == out;
    } else {
      var p := Piece(s);
      CollapseIntoAppends(out + p, s[1..]);
      CollapseIntoAppends(p, s[1..]);
      assert [] + p == p;
      assert out + p + CollapseSpace(s[1..]) == out + (p + CollapseSpace(s[1..]));
    }
  }

  /** One step of the scan. */
  lemma CollapseStep(s: string)
    requires s != []
    ensures CollapseSpace(s) == Piece(s) + CollapseSpace(s[1..])
  {
    CollapseIntoAppends(Piece(s), s[1..]);
    assert [] + Piece(s) == Piece(s);
  }

  /** The collapsed string is tidy, starts with white space only when `s`
      does, and has no character other than a blank that `s` lacks. */
  lemma {:induction false} CollapseSpaceFacts(s: string)
    ensures var r := CollapseSpace(s);
      Tidy(r) && (r != [] && IsJsSpace(r[0]) ==> s != [] && IsJsSpace(s[0])) &&
      forall k :: 0 <= k < |r| ==> r[k] == ' ' || r[k] in s
    decreases |s|
  {
    if s != [] {
      CollapseSpaceFacts(s[1..]);
      CollapseStep(s);
      var r' := CollapseSpace(s[1..]);
      forall k | 0 <= k < |r'| ensures r'[k] == ' ' || r'[k] in s {
        if r'[k] != ' ' {
          assert r'[k] in s[1..];
        }
      }
    }
  }

  /** `s` without its white space. */
  function NonSpace(s: string): string
  {
    if s == [] then []
    else (if IsJsSpace(s[0]) then [] else [s[0]]) + NonSpace(s[1..])
  }

  lemma {:induction false} NonSpaceConcat(a: string, b: string)
    ensures NonSpace(a + b) == NonSpace(a) + NonSpace(b)
    decreases |a|
  {
    if a == [] {
      assert a + b == b;
    } else {
      assert (a + b)[1..] == a[1..] + b;
      NonSpaceConcat(a[1..], b);
    }
  }

  /** Collapsing white space keeps every other character, in order. */
  lemma {:induction false} CollapseKeepsText(s: string)
    ensures NonSpace(CollapseSpace(s)) == NonSpace(s)
    decreases |s|
  {
    if s != [] {
      CollapseStep(s);
      CollapseKeepsText(s[1..]);
      NonSpaceConcat(Piece(s), CollapseSpace(s[1..]));
      assert NonSpace(Piece(s)) == if IsJsSpace(s[0]) then [] else [s[0]];
    }
  }

  /** `feature.charAt(0).toUpperCase() + feature.slice(1)`. */
  function Capitalize(f: string): (r: string)
    requires f != []
  {
    [UpperChar(f[0])] + f[1..]
  }

  /** `if (!/[.!?]$/.test(feature)) feature += '.'`. */
  function Terminate(f: string): (r: string)
    requires f != []
  {
    if IsTerminal(f[|f| - 1]) then f else f + "."
  }

  /** One visited sentence, tidied into a feature, or `None` when it has no
      action verb or its tidied form is out of the length bounds. */
  function Candidate(sentence: string, v: Vocabulary): Option<string>
  {
    var trimmed := Trim(sentence);
    if |trimmed| < 15 || !HasActionVerb(trimmed, v.verbs) then None
    else
      var f := Trim(CollapseSpace(StripLeadWord(trimmed, v.leads)));
      if f == [] then None
      else
        var g := Terminate(Capitalize(f));
        if 25 <= |g| <= 200 then Some(g) else None
  }

  /** The outcome of each sentence, in order. */
  function Outcomes(sentences: seq<string>, v: Vocabulary): (r: seq<Option<string>>)
    ensures |r| == |sentences|
  {
    if sentences == [] then []
    else Outcomes(sentences[..|sentences| - 1], v) + [Candidate(sentences[|sentences| - 1], v)]
  }

  /** One more sentence adds its own outcome at the end. */
  lemma OutcomesStep(sentences: seq<string>, i: nat, v: Vocabulary)
    requires i < |sentences|
    ensures Outcomes(sentences[..i + 1], v) == Outcomes(sentences[..i], v) + [Candidate(sentences[i], v)]
  {
    assert sentences[..i + 1][..i] == sentences[..i];
  }

  lemma {:induction false} OutcomesAt(sentences: seq<string>, v: Vocabulary, k: nat)
    requires k < |sentences|
    ensures Outcomes(sentences, v)[k] == Candidate(sentences[k], v)
  {
    if k < |sentences| - 1 {
      OutcomesAt(sentences[..|sentences| - 1], v, k);
    }
  }

  /** The values of the `Some` entries, in order. */
  function Present<T>(opts: seq<Option<T>>): seq<T>
  {
    if opts == [] then []
    else
      var init := Present(opts[..|opts| - 1]);
      match opts[|opts| - 1]
      case Some(x) => init + [x]
      case None => init
  }

  lemma PresentSnoc<T>(opts: seq<Option<T>>, o: Option<T>)
    ensures Present(opts + [o]) == match o case Some(x) => Present(opts) + [x] case None => Present(opts)
  {
    assert (opts + [o])[..|opts|] == opts;
  }

  lemma {:induction false} PresentMembership<T>(opts: seq<Option<T>>)
    ensures forall x :: x in Present(opts) <==> Some(x) in opts
  {
    if opts != [] {
      var init := opts[..|opts| - 1];
      PresentMembership(init);
      assert opts == init + [opts[|opts| - 1]];
    }
  }

  /** The candidates of `sentences`, in order. */
  function Candidates(sentences: seq<string>, v: Vocabulary): seq<string>
  {
    Present(Outcomes(sentences, v))
  }

  /** A string is a candidate exactly when some sentence yields it. */
  lemma CandidatesMembership(sentences: seq<string>, v: Vocabulary)
    ensures forall g :: g in Candidates(sentences, v) <==> exists s :: s in sentences && Candidate(s, v) == Some(g)
  {
    var o := Outcomes(sentences, v);
    PresentMembership(o);
    forall g ensures Some(g) in o <==> exists s :: s in sentences && Candidate(s, v) == Some(g) {
      if Some(g) in o {
        var k :| 0 <= k < |o| && o[k] == Some(g);
        OutcomesAt(sentences, v, k);
        assert sentences[k] in sentences;
      }
      if exists s :: s in sentences && Candidate(s, v) == Some(g) {
        var s :| s in sentences && Candidate(s, v) == Some(g);
        var k :| 0 <= k < |sentences| && sentences[k] == s;
        OutcomesAt(sentences, v, k);
        assert o[k] == Some(g);
      }
    }
  }

  /** What the loop pushes: the candidates, each at its first occurrence. */
  function Collected(description: string, v: Vocabulary): seq<string>
  {
    Dedup(Candidates(Sentences(description), v))
  }

  function LengthKey(s: string): int { -|s| }

  /** The whole extraction as a value. */
  function Features(description: string, v: Vocabulary): seq<string>
  {
    if description == [] then []
    else
      var c := Collected(description, v);
      if |c| > 8 then SortByKey(c, LengthKey)[..8] else c
  }

  /** The body of the `forEach` callback for one sentence: the feature it
      would push, if any. It takes the same steps as `Candidate`, statement by
      statement, and is proved to agree with it; `CandidateShape` states the
      form of what it returns. */
  method TidySentence(sentence: string, v: Vocabulary) returns (feature: Option<string>)
    ensures feature == Candidate(sentence, v)
  {
    var trimmed := Trim(sentence);
    if |trimmed| < 15 || !HasActionVerb(trimmed, v.verbs) {
      return None;
    }
    var f := Trim(CollapseSpace(StripLeadWord(trimmed, v.leads)));
    if |f| == 0 {
      return None;
    }
    f := Capitalize(f);
    if !IsTerminal(f[|f| - 1]) {
      f := f + ".";
    }
    if 25 <= |f| <= 200 {
      feature := Some(f);
    } else {
      feature := None;
    }
  }

  /** The loop over the sentences, then the cut to the 8 longest. */
  method ExtractFeatures(description: string, v: Vocabulary) returns (features: seq<string>)
    ensures features == Features(description, v)
  {
    if description == [] {
      return [];
    }
    var sentences := Sentences(description);
    ghost var outcomes: seq<Option<string>> := [];
    var collected: seq<string> := [];
    var i := 0;
    while i < |sentences|
      invariant i <= |sentences|
      invariant outcomes == Outcomes(sentences[..i], v)
      invariant collected == Dedup(Present(outcomes))
    {
      OutcomesStep(sentences, i, v);
      var feature := TidySentence(sentences[i], v);
      PresentSnoc(outcomes, feature);
      if feature.Some? {
        DedupSnoc(Present(outcomes), feature.value);
        if feature.value !in collected {
          collected := collected + [feature.value];
        }
      }
      outcomes := outcomes + [feature];
      i := i + 1;
    }
    assert sentences[..i] == sentences;
    if |collected| > 8 {
      features := SortByKey(collected, LengthKey)[..8];
    } else {
      features := collected;
    }
  }

  // Properties of the extraction.

  /** Every piece of the split is free of separator characters. */
  lemma {:induction false} SplitPiecesClean(s: string)
    ensures forall p :: p in Split(s) ==> NoTerminal(p)
    decreases |s|
  {
    PieceEndFacts(s);
    var n := PieceEnd(s);
    if n == |s| {
      assert s[..n] == s;
    } else {
      SplitPiecesClean(SkipTerminals(s[n + 1..]));
    }
  }

  /** Every character of `s` is a blank or a character of `t`. */
  predicate DrawnFrom(s: string, t: string)
  {
    forall k :: 0 <= k < |s| ==> s[k] == ' ' || s[k] in t
  }

  lemma DrawnFromClean(s: string, t: string)
    requires DrawnFrom(s, t) && NoTerminal(t)
    ensures NoTerminal(s)
  {
    forall k | 0 <= k < |s| ensures !IsTerminal(s[k]) {
      if s[k] != ' ' {
        var j :| 0 <= j < |t| && t[j] == s[k];
      }
    }
  }

  lemma TidySlice(s: string, i: nat, j: nat)
    requires Tidy(s) && i <= j <= |s|
    ensures Tidy(s[i..j])
  {
    forall k | 0 <= k < j - i && IsJsSpace(s[i..j][k])
      ensures s[i..j][k] == ' ' && (k + 1 < j - i ==> !IsJsSpace(s[i..j][k + 1]))
    {
      assert s[i..j][k] == s[i + k];
    }
  }

  /** What trimming keeps: a slice of its input without white space at
      either end. */
  lemma TrimKeeps(s: string)
    ensures NoTerminal(s) ==> NoTerminal(Trim(s))
    ensures Tidy(s) ==> Tidy(Trim(s))
    ensures Trim(s) != [] ==> !IsJsSpace(Trim(s)[0]) && !IsJsSpace(Trim(s)[|Trim(s)| - 1])
  {
    TrimIsSlice(s);
    TrimEnds(s);
    var k := LeadingSpaces(s);
    var r := Trim(s);
    if Tidy(s) {
      TidySlice(s, k, k + |r|);
    }
    if NoTerminal(s) {
      forall i | 0 <= i < |r| ensures !IsTerminal(r[i]) {
        assert r[i] == s[k + i];
      }
    }
  }

  /** Upper-casing the first letter changes neither its blankness nor its
      being a separator. */
  lemma UpperCharKeepsClass(c: char)
    ensures IsJsSpace(UpperChar(c)) == IsJsSpace(c)
    ensures IsTerminal(UpperChar(c)) == IsTerminal(c)
  {
  }

  /** The tidied form of a sentence that has no separator: the sentence
      after trimming, at most one leading word removed and white space
      collapsed, trimmed again, is clean and tidy with no blank at either
      end. */
  lemma TidiedFacts(sentence: string, leads: seq<string>)
    requires NoTerminal(sentence)
    ensures var f := Trim(CollapseSpace(StripLeadWord(Trim(sentence), leads)));
      NoTerminal(f) && Tidy(f) && (f != [] ==> !IsJsSpace(f[0]) && !IsJsSpace(f[|f| - 1]))
  {
    var trimmed := Trim(sentence);
    TrimKeeps(sentence);
    var st := StripLeadWord(trimmed, leads);
    StripLeadWordFacts(trimmed, leads);
    forall k | 0 <= k < |st| ensures !IsTerminal(st[k]) {
      assert st[k] == trimmed[|trimmed| - |st| + k];
    }
    var c := CollapseSpace(st);
    CollapseSpaceFacts(st);
    DrawnFromClean(c, st);
    TrimKeeps(c);
  }

  /** The form of every feature: 25 to 200 characters, a single full stop
      at the end and no other separator, no blank at the front, and single
      blanks only. */
  predicate FeatureForm(g: string)
  {
    25 <= |g| <= 200 && g[|g| - 1] == '.' && NoTerminal(g[..|g| - 1]) &&
    !IsJsSpace(g[0]) && Tidy(g)
  }

  /** What a candidate feature looks like when the sentence it comes from
      has no separator (as every piece of the split has): 25 to 200
      characters, a single full stop at the end and no other separator,
      no blank at the front, single blanks only, and it comes from a
      sentence of at least 15 characters after trimming that contains one
      of the action verbs as a whole word. */
  lemma CandidateShape(sentence: string, v: Vocabulary)
    requires NoTerminal(sentence)
    ensures Candidate(sentence, v).Some? ==>
      FeatureForm(Candidate(sentence, v).value) &&
      |Trim(sentence)| >= 15 && HasActionVerb(Trim(sentence), v.verbs)
  {
    var f := Trim(CollapseSpace(StripLeadWord(Trim(sentence), v.leads)));
    TidiedFacts(sentence, v.leads);
    if Candidate(sentence, v).Some? {
      CapitalizeKeepsForm(f);
      var g := Capitalize(f) + ".";
      assert Candidate(sentence, v) == Some(g);
      assert g[..|g| - 1] == Capitalize(f);
    }
  }

  /** Capitalising a clean, tidy string without blanks at its ends keeps it
      so. */
  lemma CapitalizeKeepsForm(f: string)
    requires f != [] && NoTerminal(f) && Tidy(f) && !IsJsSpace(f[0]) && !IsJsSpace(f[|f| - 1])
    ensures var h := Capitalize(f);
      |h| == |f| && NoTerminal(h) && Tidy(h) && !IsJsSpace(h[0]) && !IsJsSpace(h[|h| - 1])
  {
    var h := Capitalize(f);
    UpperCharKeepsClass(f[0]);
    assert h[0] == UpperChar(f[0]);
    forall k | 1 <= k < |h| ensures h[k] == f[k] {
    }
  }

  /** The collected features have no repeats, and a string is collected
      exactly when some piece of the split longer than 15 characters after
      trimming yields it. */
  lemma CollectedFacts(description: string, v: Vocabulary)
    ensures NoDuplicates(Collected(description, v))
    ensures forall g :: g in Collected(description, v) <==>
      exists s :: s in Split(description) && |Trim(s)| > 15 && Candidate(s, v) == Some(g)
  {
    var sentences := Sentences(description);
    DedupFacts(Candidates(sentences, v));
    CandidatesMembership(sentences, v);
    LongPiecesMembership(Split(description));
  }

  /** The result has no repeats and at most 8 entries, all of them collected
      features; when at most 8 were collected, they are returned as they
      were collected, in order of first appearance. */
  lemma FeaturesAreCollected(description: string, v: Vocabulary)
    ensures var r := Features(description, v);
      NoDuplicates(r) && |r| <= 8 &&
      (forall g :: g in r ==> g in Collected(description, v)) &&
      (description != [] && |Collected(description, v)| <= 8 ==> r == Collected(description, v))
  {
    var c := Collected(description, v);
    CollectedFacts(description, v);
    if description != [] && |c| > 8 {
      var q := SortByKey(c, LengthKey);
      SortByKeyFacts(c, LengthKey);
      PermutationKeepsDistinct(c, q);
      forall g | g in q[..8] ensures g in c {
        assert g in multiset(q);
      }
    }
  }

  /** When more than 8 were collected, the result is 8 of them, longest
      first, and none left out is longer than any kept. */
  lemma FeaturesKeepLongest(description: string, v: Vocabulary)
    requires description != [] && |Collected(description, v)| > 8
    ensures var r := Features(description, v);
      |r| == 8 &&
      (forall i, j :: 0 <= i < j < |r| ==> |r[i]| >= |r[j]|) &&
      (forall g :: g in Collected(description, v) && g !in r ==> forall i :: 0 <= i < |r| ==> |g| <= |r[i]|)
  {
    var c := Collected(description, v);
    SortedPrefixFromInput(c, LengthKey, 8);
    SortedPrefixKeepsSmallest(c, LengthKey, 8);
    var r := SortByKey(c, LengthKey)[..8];
    assert forall i, j :: 0 <= i < j < |r| ==> LengthKey(r[i]) <= LengthKey(r[j]);
  }

  /** An empty description yields no feature. */
  lemma NoFeaturesWithoutDescription(v: Vocabulary)
    ensures Features("", v) == []
  {
  }

  /** A collected feature has the form of a feature and comes from a piece
      of the split that is longer than 15 characters after trimming and
      contains an action verb. */
  lemma CollectedShape(description: string, v: Vocabulary, g: string)
    requires g in Collected(description, v)
    ensures FeatureForm(g)
    ensures exists s :: s in Split(description) && |Trim(s)| > 15 &&
                        HasActionVerb(Trim(s), v.verbs) && Candidate(s, v) == Some(g)
  {
    CollectedFacts(description, v);
    var s :| s in Split(description) && |Trim(s)| > 15 && Candidate(s, v) == Some(g);
    SplitPiecesClean(description);
    CandidateShape(s, v);
  }

  /** Every feature has the form of a feature and comes from a sentence of
      the description that contains an action verb. */
  lemma FeaturesShape(description: string, v: Vocabulary)
    ensures forall g :: g in Features(description, v) ==>
      FeatureForm(g) &&
      exists s :: s in Split(description) && |Trim(s)| > 15 &&
                  HasActionVerb(Trim(s), v.verbs) && Candidate(s, v) == Some(g)
  {
    FeaturesAreCollected(description, v);
    forall g | g in Features(description, v)
      ensures FeatureForm(g) &&
        exists s :: s in Split(description) && |Trim(s)| > 15 &&
                    HasActionVerb(Trim(s), v.verbs) && Candidate(s, v) == Some(g)
    {
      CollectedShape(description, v, g);
    }
  }
}
