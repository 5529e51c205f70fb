/** The declared-type translation: four case-insensitive `re.sub` calls, each
    replacing a keyword that is followed by a word boundary. */
module TypeMapping {
  import opened Text

  /** `\w`, restricted to ASCII. */
  predicate IsWordChar(c: char)
  {
    ('A' <= c <= 'Z') || ('a' <= c <= 'z') || ('0' <= c <= '9') || c == '_'
  }

  /** ASCII upper-casing: the case folding under which the keywords are compared. */
  function Upper(c: char): char
  {
    if 'a' <= c <= 'z' then (c as int - 32) as char else c
  }

  function Fold(s: string): (r: string)
    ensures |r| == |s|
  {
    seq(|s|, i requires 0 <= i < |s| => Upper(s[i]))
  }

  /** A keyword is written in upper case, from word characters only. */
  predicate IsKeyword(kw: string)
  {
    kw != [] && forall i | 0 <= i < |kw| :: 'A' <= kw[i] <= 'Z'
  }

  /** The pattern `kw\b`, with IGNORECASE, matches at the start of `s`: the keyword
      in any case, then the end of the text or a character that is not a word
      character. (The keyword ends in a word character, so that is what `\b` means here.) */
  predicate MatchesAt(s: string, kw: string)
  {
    |kw| <= |s| && CIPrefix(s, kw) && (|s| == |kw| || !IsWordChar(s[|kw|]))
  }

  /** `s` begins with the upper-case `kw`, letters compared without regard to case. */
  predicate CIPrefix(s: string, kw: string)
    decreases |kw|
  {
    kw == [] || (s != [] && Upper(s[0]) == kw[0] && CIPrefix(s[1..], kw[1..]))
  }

  /** `re.sub(kw + r"\b", repl, s, flags=re.IGNORECASE)`: scan from the left and
      replace each match, resuming after it; matches therefore never overlap. */
  function ReplaceAll(s: string, kw: string, repl: string): string
    requires kw != []
    decreases |s|
  {
    if s == [] then []
    else if MatchesAt(s, kw) then repl + ReplaceAll(s[|kw|..], kw, repl)
    else [s[0]] + ReplaceAll(s[1..], kw, repl)
  }

  const IntKeyword := "INT"
  const TextKeyword := "TEXT"
  const RealKeyword := "REAL"
  const BlobKeyword := "BLOB"
  const IntTarget := "INT"
  const TextTarget := "VARCHAR(255)"
  const RealTarget := "DOUBLE"
  const BlobTarget := "LONGBLOB"

  /** The MySQL column type for a SQLite declared type: the four substitutions, in order,
      each scanning the output of the one before. */
  function MapType(declared: string): string
  {
    var t1 := ReplaceAll(declared, IntKeyword, IntTarget);
    var t2 := ReplaceAll(t1, TextKeyword, TextTarget);
    var t3 := ReplaceAll(t2, RealKeyword, RealTarget);
    ReplaceAll(t3, BlobKeyword, BlobTarget)
  }

  /** No match of `kw` starts anywhere in `s`. */
  predicate NoMatch(s: string, kw: string)
  {
    forall i | 0 <= i < |s| :: !MatchesAt(s[i..], kw)
  }

  /** No match of `kw` can begin in text placed before `t` and run into `t`: for no
      split of `kw` into a non-empty head and a non-empty tail does `t` supply the
      tail (and the boundary after it). A match that ends just before `t` is
      allowed: `t` then only supplies the boundary and is not consumed. */
  predicate NoOverlap(kw: string, t: string)
  {
    forall d | 0 < d < |kw| :: !MatchesAt(t, kw[d..])
  }

  /** Substituting `kw` anywhere before `t` leaves `t` in place at the end. */
  predicate Keeps(kw: string, t: string)
  {
    t != [] && NoMatch(t, kw) && NoOverlap(kw, t)
  }

  // ---------------------------------------------------------------------------
  // Character-level facts

  lemma UpperIdempotent(c: char)
    ensures Upper(Upper(c)) == Upper(c)
    ensures IsWordChar(Upper(c)) == IsWordChar(c)
  {
  }

  lemma {:induction false} CIPrefixAt(s: string, kw: string, k: nat)
    requires CIPrefix(s, kw) && k < |kw|
    ensures k < |s| && Upper(s[k]) == kw[k]
    decreases |kw|
  {
    if k > 0 {
      CIPrefixAt(s[1..], kw[1..], k - 1);
    }
  }

  lemma {:induction false} CIPrefixDrop(s: string, kw: string, d: nat)
    requires CIPrefix(s, kw) && d <= |kw| && d <= |s|
    ensures CIPrefix(s[d..], kw[d..])
    decreases d
  {
    if d > 0 {
      assert s[d..] == s[1..][d - 1..];
      assert kw[d..] == kw[1..][d - 1..];
      CIPrefixDrop(s[1..], kw[1..], d - 1);
    }
  }

  /** Matching looks at letters only through their upper-case form. */
  lemma {:induction false} CIPrefixFold(s: string, kw: string)
    ensures CIPrefix(s, kw) == CIPrefix(Fold(s), kw)
    decreases |kw|
  {
    if kw != [] && s != [] {
      UpperIdempotent(s[0]);
      assert Fold(s)[1..] == Fold(s[1..]);
      CIPrefixFold(s[1..], kw[1..]);
    }
  }

  lemma MatchesAtFold(s: string, kw: string)
    ensures MatchesAt(s, kw) == MatchesAt(Fold(s), kw)
  {
    CIPrefixFold(s, kw);
    if |kw| < |s| {
      UpperIdempotent(s[|kw|]);
    }
  }

  /** A text spelling `kw` in any case is, after folding, `kw` itself. */
  lemma {:induction false} CIPrefixFoldEq(w: string, kw: string)
    requires |w| == |kw| && CIPrefix(w, kw)
    ensures Fold(w) == kw
  {
    forall k | 0 <= k < |w| ensures Fold(w)[k] == kw[k] {
      CIPrefixAt(w, kw, k);
    }
  }

  /** Whether `kw` can run into a suffix depends only on the suffix's folded form. */
  lemma KeepsFold(kw: string, w: string)
    requires Keeps(kw, Fold(w))
    ensures Keeps(kw, w)
  {
    forall i | 0 <= i < |w| ensures !MatchesAt(w[i..], kw) {
      assert Fold(w)[i..] == Fold(w[i..]);
      MatchesAtFold(w[i..], kw);
    }
    forall d | 0 < d < |kw| ensures !MatchesAt(w, kw[d..]) {
      MatchesAtFold(w, kw[d..]);
    }
  }

  // ---------------------------------------------------------------------------
  // One substitution

  /** Where `kw` never matches, the substitution changes nothing. */
  lemma {:induction false} NoMatchUnchanged(s: string, kw: string, repl: string)
    requires kw != [] && NoMatch(s, kw)
    ensures ReplaceAll(s, kw, repl) == s
    decreases |s|
  {
    if s != [] {
      assert s[0..] == s;
      forall i | 0 <= i < |s[1..]| ensures !MatchesAt(s[1..][i..], kw) {
        assert s[1..][i..] == s[i + 1..];
      }
      NoMatchUnchanged(s[1..], kw, repl);
    }
  }

  /** When the replacement spells the keyword (the `INT` rule), the substitution only
      changes the case of letters: the length and the folded text stay the same. */
  lemma {:induction false} CaseOnlyReplacement(s: string, kw: string, repl: string)
    requires kw != [] && Fold(repl) == kw
    ensures |ReplaceAll(s, kw, repl)| == |s|
    ensures Fold(ReplaceAll(s, kw, repl)) == Fold(s)
    decreases |s|
  {
    if s == [] {
    } else if MatchesAt(s, kw) {
      CaseOnlyReplacement(s[|kw|..], kw, repl);
      CIPrefixFoldEq(s[..|kw|], kw) by {
        CIPrefixTake(s, kw);
      }
      FoldAppend(repl, ReplaceAll(s[|kw|..], kw, repl));
      FoldAppend(s[..|kw|], s[|kw|..]);
      assert s[..|kw|] + s[|kw|..] == s;
    } else {
      CaseOnlyReplacement(s[1..], kw, repl);
      FoldAppend([s[0]], ReplaceAll(s[1..], kw, repl));
      FoldAppend([s[0]], s[1..]);
      assert [s[0]] + s[1..] == s;
    }
  }

  lemma FoldAppend(a: string, b: string)
    ensures Fold(a + b) == Fold(a) + Fold(b)
  {
  }

  lemma {:induction false} CIPrefixTake(s: string, kw: string)
    requires |kw| <= |s| && CIPrefix(s, kw)
    ensures CIPrefix(s[..|kw|], kw)
    decreases |kw|
  {
    if kw != [] {
      assert s[..|kw|][1..] == s[1..][..|kw| - 1];
      CIPrefixTake(s[1..], kw[1..]);
    }
  }

  /** A text that ends with the keyword (in any case) comes out ending with the
      replacement: the end of the text is a word boundary, and no earlier match can
      reach into the keyword, whose letters are all word characters. */
  lemma {:induction false} EndsWithReplacement(p: string, w: string, kw: string, repl: string)
    requires IsKeyword(kw) && |w| == |kw| && CIPrefix(w, kw)
    ensures EndsWith(ReplaceAll(p + w, kw, repl), repl)
    decreases |p|
  {
    var s := p + w;
    if p == [] {
      assert s == w;
      assert s[|kw|..] == [];
    } else if MatchesAt(s, kw) {
      if |kw| >= |p| {
        var k := |kw| - |p|;
        CIPrefixAt(w, kw, k);
        assert false;
      }
      assert s[|kw|..] == p[|kw|..] + w;
      EndsWithReplacement(p[|kw|..], w, kw, repl);
    } else {
      assert s[1..] == p[1..] + w;
      EndsWithReplacement(p[1..], w, kw, repl);
    }
  }

  /** A suffix `t` that `kw` neither matches inside nor runs into survives the
      substitution unchanged at the end of the text, whatever character it starts
      with: `(20)` survives at the end of `xINT(20)`. */
  lemma {:induction false} SuffixKept(p: string, t: string, kw: string, repl: string)
    requires kw != [] && Keeps(kw, t)
    ensures EndsWith(ReplaceAll(p + t, kw, repl), t)
    decreases |p|
  {
    var s := p + t;
    if p == [] {
      assert s == t;
      NoMatchUnchanged(t, kw, repl);
    } else if MatchesAt(s, kw) {
      if |kw| > |p| {
        var d := |p|;
        CIPrefixDrop(s, kw, d);
        assert false;
      } else if |kw| == |p| {
        assert s[|kw|..] == t;
        NoMatchUnchanged(t, kw, repl);
      } else {
        assert s[|kw|..] == p[|kw|..] + t;
        SuffixKept(p[|kw|..], t, kw, repl);
      }
    } else {
      assert s[1..] == p[1..] + t;
      SuffixKept(p[1..], t, kw, repl);
    }
  }

  /** A size suffix such as `(20)` stays at the end of any type under the `INT` rule,
      even when the keyword comes right before it, as in `xINT(20)`. */
  lemma SizeSuffixKept(p: string)
    ensures Keeps(IntKeyword, "(20)")
    ensures EndsWith(ReplaceAll(p + "(20)", IntKeyword, IntTarget), "(20)")
  {
    var t := "(20)";
    forall i | 0 <= i < |t| ensures !MatchesAt(t[i..], IntKeyword) {
      assert Upper(t[i]) != 'I';
    }
    forall d | 0 < d < |IntKeyword| ensures !MatchesAt(t, IntKeyword[d..]) {
      assert Upper(t[0]) != IntKeyword[d];
    }
    SuffixKept(p, t, IntKeyword, IntTarget);
  }

  // ---------------------------------------------------------------------------
  // Facts about the four rules' keywords and replacements

  /** `INT` written by the first rule is left alone by the three rules after it. */
  lemma IntTargetSurvives()
    ensures Keeps(TextKeyword, IntTarget) && Keeps(RealKeyword, IntTarget) && Keeps(BlobKeyword, IntTarget)
  {
    forall i | 0 <= i < |IntTarget| ensures !MatchesAt(IntTarget[i..], TextKeyword) {
      if i == 0 {} else if i == 1 {} else if i == 2 {}
    }
    forall d | 0 < d <= |TextKeyword| ensures !MatchesAt(IntTarget, TextKeyword[d..]) {
      if d == 1 {} else if d == 2 {} else if d == 3 {} else if d == 4 {}
    }
    forall i | 0 <= i < |IntTarget| ensures !MatchesAt(IntTarget[i..], RealKeyword) {
      if i == 0 {} else if i == 1 {} else if i == 2 {}
    }
    forall d | 0 < d <= |RealKeyword| ensures !MatchesAt(IntTarget, RealKeyword[d..]) {
      if d == 1 {} else if d == 2 {} else if d == 3 {} else if d == 4 {}
    }
    forall i | 0 <= i < |IntTarget| ensures !MatchesAt(IntTarget[i..], BlobKeyword) {
      if i == 0 {} else if i == 1 {} else if i == 2 {}
    }
    forall d | 0 < d <= |BlobKeyword| ensures !MatchesAt(IntTarget, BlobKeyword[d..]) {
      if d == 1 {} else if d == 2 {} else if d == 3 {} else if d == 4 {}
    }
  }

  /** `VARCHAR(255)` is left alone by the `REAL` and `BLOB` rules. */
  lemma TextTargetSurvives()
    ensures Keeps(RealKeyword, TextTarget) && Keeps(BlobKeyword, TextTarget)
  {
    TextTargetKeepsReal();
    TextTargetKeepsBlob();
  }

  lemma TextTargetKeepsReal()
    ensures Keeps(RealKeyword, TextTarget)
  {
    forall i | 0 <= i < |TextTarget| ensures !MatchesAt(TextTarget[i..], RealKeyword) {
      if i == 0 {} else if i == 1 {} else if i == 2 {} else if i == 3 {} else if i == 4 {} else if i == 5 {} else if i == 6 {} else if i == 7 {} else if i == 8 {} else if i == 9 {} else if i == 10 {} else if i == 11 {}
    }
    forall d | 0 < d <= |RealKeyword| ensures !MatchesAt(TextTarget, RealKeyword[d..]) {
      if d == 1 {} else if d == 2 {} else if d == 3 {} else if d == 4 {}
    }
  }

  lemma TextTargetKeepsBlob()
    ensures Keeps(BlobKeyword, TextTarget)
  {
    forall i | 0 <= i < |TextTarget| ensures !MatchesAt(TextTarget[i..], BlobKeyword) {
      if i == 0 {} else if i == 1 {} else if i == 2 {} else if i == 3 {} else if i == 4 {} else if i == 5 {} else if i == 6 {} else if i == 7 {} else if i == 8 {} else if i == 9 {} else if i == 10 {} else if i == 11 {}
    }
    forall d | 0 < d <= |BlobKeyword| ensures !MatchesAt(TextTarget, BlobKeyword[d..]) {
      if d == 1 {} else if d == 2 {} else if d == 3 {} else if d == 4 {}
    }
  }

  /** `DOUBLE` is left alone by the `BLOB` rule. */
  lemma RealTargetSurvives()
    ensures Keeps(BlobKeyword, RealTarget)
  {
    forall i | 0 <= i < |RealTarget| ensures !MatchesAt(RealTarget[i..], BlobKeyword) {
      if i == 0 {} else if i == 1 {} else if i == 2 {} else if i == 3 {} else if i == 4 {} else if i == 5 {}
    }
    forall d | 0 < d <= |BlobKeyword| ensures !MatchesAt(RealTarget, BlobKeyword[d..]) {
      if d == 1 {} else if d == 2 {} else if d == 3 {} else if d == 4 {}
    }
  }

  /** A trailing `TEXT` is left alone by the `INT` rule. */
  lemma TextKeywordSurvives()
    ensures Keeps(IntKeyword, TextKeyword)
  {
    forall i | 0 <= i < |TextKeyword| ensures !MatchesAt(TextKeyword[i..], IntKeyword) {
      if i == 0 {} else if i == 1 {} else if i == 2 {} else if i == 3 {}
    }
    forall d | 0 < d <= |IntKeyword| ensures !MatchesAt(TextKeyword, IntKeyword[d..]) {
      if d == 1 {} else if d == 2 {} else if d == 3 {}
    }
  }

  /** A trailing `REAL` is left alone by the `INT` and `TEXT` rules. */
  lemma RealKeywordSurvives()
    ensures Keeps(IntKeyword, RealKeyword) && Keeps(TextKeyword, RealKeyword)
  {
    forall i | 0 <= i < |RealKeyword| ensures !MatchesAt(RealKeyword[i..], IntKeyword) {
      if i == 0 {} else if i == 1 {} else if i == 2 {} else if i == 3 {}
    }
    forall d | 0 < d <= |IntKeyword| ensures !MatchesAt(RealKeyword, IntKeyword[d..]) {
      if d == 1 {} else if d == 2 {} else if d == 3 {}
    }
    forall i | 0 <= i < |RealKeyword| ensures !MatchesAt(RealKeyword[i..], TextKeyword) {
      if i == 0 {} else if i == 1 {} else if i == 2 {} else if i == 3 {}
    }
    forall d | 0 < d <= |TextKeyword| ensures !MatchesAt(RealKeyword, TextKeyword[d..]) {
      if d == 1 {} else if d == 2 {} else if d == 3 {} else if d == 4 {}
    }
  }

  /** A trailing `BLOB` is left alone by the three rules before it. */
  lemma BlobKeywordSurvives()
    ensures Keeps(IntKeyword, BlobKeyword) && Keeps(TextKeyword, BlobKeyword) && Keeps(RealKeyword, BlobKeyword)
  {
    forall i | 0 <= i < |BlobKeyword| ensures !MatchesAt(BlobKeyword[i..], IntKeyword) {
      if i == 0 {} else if i == 1 {} else if i == 2 {} else if i == 3 {}
    }
    forall d | 0 < d <= |IntKeyword| ensures !MatchesAt(BlobKeyword, IntKeyword[d..]) {
      if d == 1 {} else if d == 2 {} else if d == 3 {}
    }
    forall i | 0 <= i < |BlobKeyword| ensures !MatchesAt(BlobKeyword[i..], TextKeyword) {
      if i == 0 {} else if i == 1 {} else if i == 2 {} else if i == 3 {}
    }
    forall d | 0 < d <= |TextKeyword| ensures !MatchesAt(BlobKeyword, TextKeyword[d..]) {
      if d == 1 {} else if d == 2 {} else if d == 3 {} else if d == 4 {}
    }
    forall i | 0 <= i < |BlobKeyword| ensures !MatchesAt(BlobKeyword[i..], RealKeyword) {
      if i == 0 {} else if i == 1 {} else if i == 2 {} else if i == 3 {}
    }
    forall d | 0 < d <= |RealKeyword| ensures !MatchesAt(BlobKeyword, RealKeyword[d..]) {
      if d == 1 {} else if d == 2 {} else if d == 3 {} else if d == 4 {}
    }
  }

  lemma KeywordsWellFormed()
    ensures IsKeyword(IntKeyword) && IsKeyword(TextKeyword)
    ensures IsKeyword(RealKeyword) && IsKeyword(BlobKeyword)
  {
    forall i | 0 <= i < 3 ensures 'A' <= IntKeyword[i] <= 'Z' {
      if i == 0 {} else if i == 1 {} else if i == 2 {}
    }
    forall i | 0 <= i < 4 ensures 'A' <= TextKeyword[i] <= 'Z' && 'A' <= RealKeyword[i] <= 'Z'
      && 'A' <= BlobKeyword[i] <= 'Z'
    {
      if i == 0 {} else if i == 1 {} else if i == 2 {} else if i == 3 {}
    }
  }

  lemma {:induction false} CIPrefixSelf(kw: string)
    requires forall i | 0 <= i < |kw| :: 'A' <= kw[i] <= 'Z'
    ensures CIPrefix(kw, kw)
    decreases |kw|
  {
    if kw != [] {
      CIPrefixSelf(kw[1..]);
    }
  }

  /** A text whose folded form is the keyword matches the keyword letter by letter. */
  lemma SpellsKeyword(w: string, kw: string)
    requires IsKeyword(kw) && Fold(w) == kw
    ensures |w| == |kw| && CIPrefix(w, kw)
  {
    CIPrefixFold(w, kw);
    CIPrefixSelf(kw);
  }

  /** `SuffixKept`, for a text known to end with `t`. */
  lemma EndingKept(x: string, t: string, kw: string, repl: string)
    requires kw != [] && Keeps(kw, t) && EndsWith(x, t)
    ensures EndsWith(ReplaceAll(x, kw, repl), t)
  {
    assert x == x[..|x| - |t|] + t;
    SuffixKept(x[..|x| - |t|], t, kw, repl);
  }

  /** `EndsWithReplacement`, for a text known to end with a spelling of `kw`. */
  lemma EndingReplaced(x: string, w: string, kw: string, repl: string)
    requires IsKeyword(kw) && Fold(w) == kw && EndsWith(x, w)
    ensures EndsWith(ReplaceAll(x, kw, repl), repl)
  {
    SpellsKeyword(w, kw);
    assert x == x[..|x| - |w|] + w;
    EndsWithReplacement(x[..|x| - |w|], w, kw, repl);
  }

  // ---------------------------------------------------------------------------
  // The four rules together

  /** A declared type ending in `int` (any case, then the end) ends in `INT`. */
  lemma MapTypeEndingInt(p: string, w: string)
    requires Fold(w) == IntKeyword
    ensures EndsWith(MapType(p + w), IntTarget)
  {
    KeywordsWellFormed();
    IntTargetSurvives();
    var t1 := ReplaceAll(p + w, IntKeyword, IntTarget);
    EndingReplaced(p + w, w, IntKeyword, IntTarget);
    var t2 := ReplaceAll(t1, TextKeyword, TextTarget);
    EndingKept(t1, IntTarget, TextKeyword, TextTarget);
    var t3 := ReplaceAll(t2, RealKeyword, RealTarget);
    EndingKept(t2, IntTarget, RealKeyword, RealTarget);
    EndingKept(t3, IntTarget, BlobKeyword, BlobTarget);
  }

  /** A declared type ending in `text` (any case, then the end) ends in `VARCHAR(255)`. */
  lemma MapTypeEndingText(p: string, w: string)
    requires Fold(w) == TextKeyword
    ensures EndsWith(MapType(p + w), TextTarget)
  {
    KeywordsWellFormed();
    TextKeywordSurvives();
    TextTargetSurvives();
    KeepsFold(IntKeyword, w);
    var t1 := ReplaceAll(p + w, IntKeyword, IntTarget);
    EndingKept(p + w, w, IntKeyword, IntTarget);
    var t2 := ReplaceAll(t1, TextKeyword, TextTarget);
    EndingReplaced(t1, w, TextKeyword, TextTarget);
    var t3 := ReplaceAll(t2, RealKeyword, RealTarget);
    EndingKept(t2, TextTarget, RealKeyword, RealTarget);
    EndingKept(t3, TextTarget, BlobKeyword, BlobTarget);
  }

  /** A declared type ending in `real` (any case, then the end) ends in `DOUBLE`. */
  lemma MapTypeEndingReal(p: string, w: string)
    requires Fold(w) == RealKeyword
    ensures EndsWith(MapType(p + w), RealTarget)
  {
    KeywordsWellFormed();
    RealKeywordSurvives();
    RealTargetSurvives();
    KeepsFold(IntKeyword, w);
    KeepsFold(TextKeyword, w);
    var t1 := ReplaceAll(p + w, IntKeyword, IntTarget);
    EndingKept(p + w, w, IntKeyword, IntTarget);
    var t2 := ReplaceAll(t1, TextKeyword, TextTarget);
    EndingKept(t1, w, TextKeyword, TextTarget);
    var t3 := ReplaceAll(t2, RealKeyword, RealTarget);
    EndingReplaced(t2, w, RealKeyword, RealTarget);
    EndingKept(t3, RealTarget, BlobKeyword, BlobTarget);
  }

  /** A declared type ending in `blob` (any case, then the end) ends in `LONGBLOB`. */
  lemma MapTypeEndingBlob(p: string, w: string)
    requires Fold(w) == BlobKeyword
    ensures EndsWith(MapType(p + w), BlobTarget)
  {
    KeywordsWellFormed();
    BlobKeywordSurvives();
    KeepsFold(IntKeyword, w);
    KeepsFold(TextKeyword, w);
    KeepsFold(RealKeyword, w);
    var t1 := ReplaceAll(p + w, IntKeyword, IntTarget);
    EndingKept(p + w, w, IntKeyword, IntTarget);
    var t2 := ReplaceAll(t1, TextKeyword, TextTarget);
    EndingKept(t1, w, TextKeyword, TextTarget);
    var t3 := ReplaceAll(t2, RealKeyword, RealTarget);
    EndingKept(t2, w, RealKeyword, RealTarget);
    EndingReplaced(t3, w, BlobKeyword, BlobTarget);
  }

  /** A type with no keyword followed by a boundary passes through unchanged. */
  lemma MapTypeUnchanged(t: string)
    requires NoMatch(t, IntKeyword) && NoMatch(t, TextKeyword)
    requires NoMatch(t, RealKeyword) && NoMatch(t, BlobKeyword)
    ensures MapType(t) == t
  {
    NoMatchUnchanged(t, IntKeyword, IntTarget);
    NoMatchUnchanged(t, TextKeyword, TextTarget);
    NoMatchUnchanged(t, RealKeyword, RealTarget);
    NoMatchUnchanged(t, BlobKeyword, BlobTarget);
  }

  /** The `INT` rule only upper-cases: it keeps the length and the folded text. */
  lemma IntRuleOnlyChangesCase(s: string)
    ensures |ReplaceAll(s, IntKeyword, IntTarget)| == |s|
    ensures Fold(ReplaceAll(s, IntKeyword, IntTarget)) == Fold(s)
  {
    assert Fold(IntTarget) == IntKeyword;
    CaseOnlyReplacement(s, IntKeyword, IntTarget);
  }

  /** A text whose first letter begins none of the keywords matches none of them. */
  lemma NoKeywordStartsHere(s: string)
    requires s != [] && Upper(s[0]) !in {'I', 'T', 'R', 'B'}
    ensures !MatchesAt(s, IntKeyword) && !MatchesAt(s, TextKeyword)
    ensures !MatchesAt(s, RealKeyword) && !MatchesAt(s, BlobKeyword)
  {
  }

  /** A text shorter than a keyword cannot match it. */
  lemma TooShortForKeyword(s: string, kw: string)
    requires |s| < |kw|
    ensures !MatchesAt(s, kw)
  {
  }

  /** `INTEGER` carries no keyword followed by a boundary, so it maps to itself. */
  lemma IntegerUnchanged()
    ensures MapType("INTEGER") == "INTEGER"
  {
    var a := "INTEGER";
    forall i | 0 <= i < |a| ensures !MatchesAt(a[i..], IntKeyword) && !MatchesAt(a[i..], TextKeyword)
      && !MatchesAt(a[i..], RealKeyword) && !MatchesAt(a[i..], BlobKeyword)
    {
      var s := a[i..];
      assert s[0] == a[i];
      if i == 0 {
        assert s[|IntKeyword|] == 'E';
        NoKeywordStartsHere(s[1..]);
        assert !MatchesAt(s, TextKeyword) && !MatchesAt(s, RealKeyword) && !MatchesAt(s, BlobKeyword);
      } else if i == 2 {
        assert s[1] == 'E' && s[2] == 'G';
        assert !CIPrefix(s[2..], TextKeyword[2..]);
      } else if i == 6 {
        TooShortForKeyword(s, IntKeyword);
        TooShortForKeyword(s, TextKeyword);
        TooShortForKeyword(s, RealKeyword);
        TooShortForKeyword(s, BlobKeyword);
      } else {
        NoKeywordStartsHere(s);
      }
    }
    MapTypeUnchanged(a);
  }

  /** `NUMERIC` carries no keyword followed by a boundary, so it maps to itself. */
  lemma NumericUnchanged()
    ensures MapType("NUMERIC") == "NUMERIC"
  {
    var a := "NUMERIC";
    forall i | 0 <= i < |a| ensures !MatchesAt(a[i..], IntKeyword) && !MatchesAt(a[i..], TextKeyword)
      && !MatchesAt(a[i..], RealKeyword) && !MatchesAt(a[i..], BlobKeyword)
    {
      var s := a[i..];
      assert s[0] == a[i];
      if i == 4 || i == 5 {
        if i == 4 {
          assert Upper(s[0]) != IntKeyword[0];
        } else {
          TooShortForKeyword(s, IntKeyword);
        }
        TooShortForKeyword(s, TextKeyword);
        TooShortForKeyword(s, RealKeyword);
        TooShortForKeyword(s, BlobKeyword);
      } else {
        NoKeywordStartsHere(s);
      }
    }
    MapTypeUnchanged(a);
  }

  /** The text is empty or ends in a character that is not a word character. */
  predicate EndsAtBoundary(p: string)
  {
    p == [] || !IsWordChar(p[|p| - 1])
  }

  lemma {:induction false} CIPrefixAppend(a: string, b: string, kw: string)
    requires |kw| <= |a|
    ensures CIPrefix(a + b, kw) == CIPrefix(a, kw)
    decreases |kw|
  {
    if kw != [] {
      assert (a + b)[1..] == a[1..] + b;
      CIPrefixAppend(a[1..], b, kw[1..]);
    }
  }

  /** No match can cover a character that is not a word character. */
  lemma NoMatchAcrossBoundary(s: string, kw: string, k: nat)
    requires IsKeyword(kw) && k < |s| && !IsWordChar(s[k]) && k < |kw|
    ensures !MatchesAt(s, kw)
  {
    if MatchesAt(s, kw) {
      CIPrefixAt(s, kw, k);
      assert false;
    }
  }

  /** Before a non-word character, a match neither needs nor sees what follows it. */
  lemma MatchesAtBeforeBoundary(p: string, t: string, kw: string)
    requires IsKeyword(kw) && p != [] && EndsAtBoundary(p)
    ensures MatchesAt(p + t, kw) == MatchesAt(p, kw)
    ensures MatchesAt(p, kw) ==> |kw| < |p|
  {
    if |kw| >= |p| {
      NoMatchAcrossBoundary(p + t, kw, |p| - 1);
      NoMatchAcrossBoundary(p, kw, |p| - 1);
    } else {
      CIPrefixAppend(p, t, kw);
      assert (p + t)[|kw|] == p[|kw|];
    }
  }

  /** Cutting the text after a character that is not a word character cuts the
      substitution there too: each side is substituted on its own. */
  lemma {:induction false} ReplaceAllSplit(p: string, t: string, kw: string, repl: string)
    requires IsKeyword(kw) && EndsAtBoundary(p)
    ensures ReplaceAll(p + t, kw, repl) == ReplaceAll(p, kw, repl) + ReplaceAll(t, kw, repl)
    decreases |p|
  {
    if p == [] {
      assert p + t == t;
    } else {
      MatchesAtBeforeBoundary(p, t, kw);
      if MatchesAt(p, kw) {
        var r := p[|kw|..];
        assert (p + t)[|kw|..] == r + t;
        ReplaceAllSplit(r, t, kw, repl);
        assert ReplaceAll(p + t, kw, repl) == repl + ReplaceAll(r + t, kw, repl);
      } else {
        var r := p[1..];
        assert (p + t)[1..] == r + t;
        ReplaceAllSplit(r, t, kw, repl);
        assert ReplaceAll(p + t, kw, repl) == [p[0]] + ReplaceAll(r + t, kw, repl);
      }
    }
  }

  /** The substitution keeps a last character that is not a word character. */
  lemma {:induction false} ReplaceAllKeepsBoundary(p: string, kw: string, repl: string)
    requires IsKeyword(kw) && p != [] && EndsAtBoundary(p)
    ensures ReplaceAll(p, kw, repl) != [] && ReplaceAll(p, kw, repl)[|ReplaceAll(p, kw, repl)| - 1] == p[|p| - 1]
    decreases |p|
  {
    MatchesAtBeforeBoundary(p, [], kw);
    if MatchesAt(p, kw) {
      ReplaceAllKeepsBoundary(p[|kw|..], kw, repl);
    } else if |p| > 1 {
      ReplaceAllKeepsBoundary(p[1..], kw, repl);
    }
  }

  /** The whole mapping works piecewise on either side of a non-word character, so
      `UNSIGNED BIG INT` maps as `UNSIGNED BIG ` followed by `INT`. */
  lemma MapTypeSplit(p: string, t: string)
    requires EndsAtBoundary(p)
    ensures MapType(p + t) == MapType(p) + MapType(t)
  {
    KeywordsWellFormed();
    var t1 := ReplaceAll(t, IntKeyword, IntTarget);
    var t2 := ReplaceAll(t1, TextKeyword, TextTarget);
    var t3 := ReplaceAll(t2, RealKeyword, RealTarget);
    var p1 := ReplaceAll(p, IntKeyword, IntTarget);
    var p2 := ReplaceAll(p1, TextKeyword, TextTarget);
    var p3 := ReplaceAll(p2, RealKeyword, RealTarget);
    if p != [] {
      ReplaceAllKeepsBoundary(p, IntKeyword, IntTarget);
      ReplaceAllKeepsBoundary(p1, TextKeyword, TextTarget);
      ReplaceAllKeepsBoundary(p2, RealKeyword, RealTarget);
    }
    ReplaceAllSplit(p, t, IntKeyword, IntTarget);
    ReplaceAllSplit(p1, t1, TextKeyword, TextTarget);
    ReplaceAllSplit(p2, t2, RealKeyword, RealTarget);
    ReplaceAllSplit(p3, t3, BlobKeyword, BlobTarget);
  }


  /** A non-word character added at the end changes no match. */
  lemma MatchesAtAppendBoundary(s: string, c: char, kw: string)
    requires IsKeyword(kw) && !IsWordChar(c)
    ensures MatchesAt(s + [c], kw) == MatchesAt(s, kw)
  {
    if |kw| > |s| {
      NoMatchAcrossBoundary(s + [c], kw, |s|);
    } else {
      CIPrefixAppend(s, [c], kw);
      if |kw| < |s| {
        assert (s + [c])[|kw|] == s[|kw|];
      }
    }
  }

  /** A non-word character added at the end is never part of a match and is copied. */
  lemma {:induction false} ReplaceAllAppendBoundary(s: string, c: char, kw: string, repl: string)
    requires IsKeyword(kw) && !IsWordChar(c)
    ensures ReplaceAll(s + [c], kw, repl) == ReplaceAll(s, kw, repl) + [c]
    decreases |s|
  {
    MatchesAtAppendBoundary(s, c, kw);
    if s == [] {
      assert s + [c] == [c] && [c][1..] == [];
    } else if MatchesAt(s, kw) {
      var r := s[|kw|..];
      assert (s + [c])[|kw|..] == r + [c];
      ReplaceAllAppendBoundary(r, c, kw, repl);
      assert ReplaceAll(s + [c], kw, repl) == repl + ReplaceAll(r + [c], kw, repl);
    } else {
      var r := s[1..];
      assert (s + [c])[1..] == r + [c];
      ReplaceAllAppendBoundary(r, c, kw, repl);
      assert ReplaceAll(s + [c], kw, repl) == [s[0]] + ReplaceAll(r + [c], kw, repl);
    }
  }

  /** The whole mapping copies a non-word character added at the end. */
  lemma MapTypeAppendBoundary(s: string, c: char)
    requires !IsWordChar(c)
    ensures MapType(s + [c]) == MapType(s) + [c]
  {
    KeywordsWellFormed();
    var t1 := ReplaceAll(s, IntKeyword, IntTarget);
    var t2 := ReplaceAll(t1, TextKeyword, TextTarget);
    var t3 := ReplaceAll(t2, RealKeyword, RealTarget);
    ReplaceAllAppendBoundary(s, c, IntKeyword, IntTarget);
    ReplaceAllAppendBoundary(t1, c, TextKeyword, TextTarget);
    ReplaceAllAppendBoundary(t2, c, RealKeyword, RealTarget);
    ReplaceAllAppendBoundary(t3, c, BlobKeyword, BlobTarget);
  }

  /** A lone non-word character maps to itself. */
  lemma MapTypeBoundaryChar(c: char)
    requires !IsWordChar(c)
    ensures MapType([c]) == [c]
  {
    MapTypeAppendBoundary([], c);
    assert [] + [c] == [c];
  }

  /** What follows a keyword, when it begins with a non-word character or is empty,
      is mapped on its own: `TEXT(20)` maps as `TEXT` followed by `(20)`. */
  lemma MapTypeBeforeBoundary(s: string, r: string)
    requires r == [] || !IsWordChar(r[0])
    ensures MapType(s + r) == MapType(s) + MapType(r)
  {
    if r == [] {
      assert s + r == s;
    } else {
      var c, rest := r[0], r[1..];
      var sc := s + [c];
      assert s + r == sc + rest;
      MapTypeSplit(sc, rest);
      MapTypeAppendBoundary(s, c);
      assert r == [c] + rest;
      MapTypeSplit([c], rest);
      MapTypeBoundaryChar(c);
    }
  }

  /** A keyword at the end of a word (any case, then the end of the type or a non-word
      character) is replaced by its target, and the rest of the type is mapped on its own. */
  lemma MapTypeKeywordThenBoundary(p: string, w: string, r: string)
    requires r == [] || !IsWordChar(r[0])
    ensures MapType(p + w + r) == MapType(p + w) + MapType(r)
    ensures Fold(w) == IntKeyword ==> EndsWith(MapType(p + w), IntTarget)
    ensures Fold(w) == TextKeyword ==> EndsWith(MapType(p + w), TextTarget)
    ensures Fold(w) == RealKeyword ==> EndsWith(MapType(p + w), RealTarget)
    ensures Fold(w) == BlobKeyword ==> EndsWith(MapType(p + w), BlobTarget)
  {
    MapTypeBeforeBoundary(p + w, r);
    if Fold(w) == IntKeyword {
      MapTypeEndingInt(p, w);
    } else if Fold(w) == TextKeyword {
      MapTypeEndingText(p, w);
    } else if Fold(w) == RealKeyword {
      MapTypeEndingReal(p, w);
    } else if Fold(w) == BlobKeyword {
      MapTypeEndingBlob(p, w);
    }
  }

  /** A text that spells the keyword and nothing else is replaced as a whole. */
  lemma WholeKeywordReplaced(w: string, kw: string, repl: string)
    requires IsKeyword(kw) && Fold(w) == kw
    ensures ReplaceAll(w, kw, repl) == repl
  {
    SpellsKeyword(w, kw);
    assert w[|kw|..] == [];
  }

  /** A declared type that is exactly one keyword, in any case, maps to that
      keyword's MySQL type. */
  lemma MapTypeOfKeyword(w: string)
    ensures Fold(w) == IntKeyword ==> MapType(w) == IntTarget
    ensures Fold(w) == TextKeyword ==> MapType(w) == TextTarget
    ensures Fold(w) == RealKeyword ==> MapType(w) == RealTarget
    ensures Fold(w) == BlobKeyword ==> MapType(w) == BlobTarget
  {
    KeywordsWellFormed();
    IntTargetSurvives();
    TextTargetSurvives();
    RealTargetSurvives();
    if Fold(w) == IntKeyword {
      WholeKeywordReplaced(w, IntKeyword, IntTarget);
      NoMatchUnchanged(IntTarget, TextKeyword, TextTarget);
      NoMatchUnchanged(IntTarget, RealKeyword, RealTarget);
      NoMatchUnchanged(IntTarget, BlobKeyword, BlobTarget);
    } else if Fold(w) == TextKeyword {
      TextKeywordSurvives();
      KeepsFold(IntKeyword, w);
      NoMatchUnchanged(w, IntKeyword, IntTarget);
      WholeKeywordReplaced(w, TextKeyword, TextTarget);
      NoMatchUnchanged(TextTarget, RealKeyword, RealTarget);
      NoMatchUnchanged(TextTarget, BlobKeyword, BlobTarget);
    } else if Fold(w) == RealKeyword {
      RealKeywordSurvives();
      KeepsFold(IntKeyword, w);
      KeepsFold(TextKeyword, w);
      NoMatchUnchanged(w, IntKeyword, IntTarget);
      NoMatchUnchanged(w, TextKeyword, TextTarget);
      WholeKeywordReplaced(w, RealKeyword, RealTarget);
      NoMatchUnchanged(RealTarget, BlobKeyword, BlobTarget);
    } else if Fold(w) == BlobKeyword {
      BlobKeywordSurvives();
      KeepsFold(IntKeyword, w);
      KeepsFold(TextKeyword, w);
      KeepsFold(RealKeyword, w);
      NoMatchUnchanged(w, IntKeyword, IntTarget);
      NoMatchUnchanged(w, TextKeyword, TextTarget);
      NoMatchUnchanged(w, RealKeyword, RealTarget);
      WholeKeywordReplaced(w, BlobKeyword, BlobTarget);
    }
  }
}
