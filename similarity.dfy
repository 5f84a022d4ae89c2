/**
 * The fuzzy question matcher of the idea-status cleanup
 * (`normalizeText` and `areQuestionsSimilar`): two questions match when
 * their normalised texts are equal, or when at least four fifths of the
 * larger of their sets of long words (more than two characters) are shared.
 */
module Similarity {
  import opened Basics
  import opened Text

  /** The `\w` class of a JavaScript regular expression without the `u` flag. */
  predicate IsWordChar(c: char) {
    ('a' <= c <= 'z') || ('A' <= c <= 'Z') || ('0' <= c <= '9') || c == '_'
  }

  /** `replace(/[^\w\s]/g, '')`: keeps the word characters and the whitespace, in order. */
  function StripPunctuation(s: string): (r: string)
    ensures |r| <= |s|
    ensures forall i :: 0 <= i < |r| ==> IsWordChar(r[i]) || IsSpace(r[i])
  {
    if s == [] then []
    else
      var rest := StripPunctuation(s[1..]);
      if IsWordChar(s[0]) || IsSpace(s[0]) then [s[0]] + rest else rest
  }

  /** Stripping keeps exactly the word characters and the whitespace of its input. */
  lemma {:induction false} StripKeeps(s: string)
    ensures forall c :: c in StripPunctuation(s) <==> c in s && (IsWordChar(c) || IsSpace(c))
  {
    if s != [] {
      StripKeeps(s[1..]);
      assert forall c :: c in s <==> c == s[0] || c in s[1..];
    }
  }

  /** `trimStart()` of a string that starts with whitespace drops at least that character. */
  lemma TrimStartShrinks(s: string)
    requires s != [] && IsSpace(s[0])
    ensures |TrimStart(s)| < |s|
    ensures TrimStart(s) == TrimStart(s[1..])
  {
  }

  /** No two plain spaces are adjacent. */
  predicate NoDoubleSpace(s: string) {
    forall i :: 0 <= i < |s| - 1 ==> !(s[i] == ' ' && s[i + 1] == ' ')
  }

  lemma ConsNoDoubleSpace(c: char, t: string)
    requires NoDoubleSpace(t)
    requires c == ' ' ==> t == [] || t[0] != ' '
    ensures NoDoubleSpace([c] + t)
  {
    var r := [c] + t;
    forall i | 0 <= i < |r| - 1 ensures !(r[i] == ' ' && r[i + 1] == ' ') {
      if i > 0 {
        assert r[i] == t[i - 1] && r[i + 1] == t[i];
      }
    }
  }

  /** `replace(/\s+/g, ' ')`: every maximal run of whitespace becomes one space. */
  function CollapseSpaces(s: string): (r: string)
    ensures |r| <= |s|
    ensures NoDoubleSpace(r)
    ensures (r != [] && r[0] == ' ') <==> (s != [] && IsSpace(s[0]))
    decreases |s|
  {
    if s == [] then []
    else if IsSpace(s[0]) then
      TrimStartShrinks(s);
      var c := CollapseSpaces(TrimStart(s));
      ConsNoDoubleSpace(' ', c);
      [' '] + c
    else
      var c := CollapseSpaces(s[1..]);
      ConsNoDoubleSpace(s[0], c);
      [s[0]] + c
  }

  /** `text.toLowerCase().replace(/[^\w\s]/g, '').replace(/\s+/g, ' ').trim()`. */
  function NormalizeText(text: string): string {
    Trim(CollapseSpaces(StripPunctuation(Lower(text))))
  }

  /** The characters a normalised text is made of: lower-case word characters and the plain space. */
  predicate IsNormalChar(c: char) {
    ('a' <= c <= 'z') || ('0' <= c <= '9') || c == '_' || c == ' '
  }

  predicate AllNormal(s: string) {
    forall i :: 0 <= i < |s| ==> IsNormalChar(s[i])
  }

  /** The normal form: normal characters, single spaces between words, none at either end. */
  predicate IsNormal(s: string) {
    && AllNormal(s)
    && NoDoubleSpace(s)
    && (s == [] || (s[0] != ' ' && s[|s| - 1] != ' '))
  }

  /** Normal characters or whitespace: what is left once a lower-cased text is stripped. */
  predicate CleanChars(s: string) {
    forall i :: 0 <= i < |s| ==> IsNormalChar(s[i]) || IsSpace(s[i])
  }

  lemma {:induction false} StripLowered(l: string)
    requires IsLowered(l)
    ensures CleanChars(StripPunctuation(l))
  {
    if l != [] {
      StripLowered(l[1..]);
    }
  }

  lemma CleanSuffix(s: string, k: nat)
    requires CleanChars(s) && k <= |s|
    ensures CleanChars(s[k..])
  {
    assert forall i :: 0 <= i < |s| - k ==> s[k..][i] == s[k + i];
  }

  lemma {:induction false} CollapseClean(s: string)
    requires CleanChars(s)
    ensures AllNormal(CollapseSpaces(s))
    decreases |s|
  {
    if s != [] {
      if IsSpace(s[0]) {
        TrimStartShrinks(s);
        var t := TrimStart(s);
        CleanSuffix(s, |s| - |t|);
        CollapseClean(t);
      } else {
        CleanSuffix(s, 1);
        CollapseClean(s[1..]);
      }
    }
  }

  /** A slice of a text with normal characters and single spaces has them too. */
  lemma SliceNormal(c: string, a: nat, b: nat)
    requires a <= b <= |c| && AllNormal(c) && NoDoubleSpace(c)
    ensures AllNormal(c[a..b]) && NoDoubleSpace(c[a..b])
  {
    var t := c[a..b];
    assert forall i :: 0 <= i < |t| ==> t[i] == c[a + i];
  }

  /** Trimming a text with normal characters and single spaces puts it in normal form. */
  lemma TrimNormal(c: string)
    requires AllNormal(c) && NoDoubleSpace(c)
    ensures IsNormal(Trim(c))
  {
    var t := Trim(c);
    var d := TrimSlice(c);
    SliceNormal(c, d, d + |t|);
    assert IsTrimmed(t) && IsSpace(' ');
  }

  /** Whatever the input, `normalizeText` produces a text in normal form. */
  lemma NormalizedIsNormal(text: string)
    ensures IsNormal(NormalizeText(text))
  {
    LowerIsLowered(text);
    var p := StripPunctuation(Lower(text));
    StripLowered(Lower(text));
    CollapseClean(p);
    TrimNormal(CollapseSpaces(p));
  }

  lemma {:induction false} StripClean(s: string)
    requires AllNormal(s)
    ensures StripPunctuation(s) == s
  {
    if s != [] {
      StripClean(s[1..]);
    }
  }

  lemma {:induction false} CollapseSingleSpaces(s: string)
    requires AllNormal(s)
    requires NoDoubleSpace(s)
    ensures CollapseSpaces(s) == s
  {
    if s != [] {
      NormalTail(s);
      CollapseSingleSpaces(s[1..]);
      assert s == [s[0]] + s[1..];
      if IsSpace(s[0]) {
        assert CollapseSpaces(s) == [' '] + CollapseSpaces(TrimStart(s));
      } else {
        assert CollapseSpaces(s) == [s[0]] + CollapseSpaces(s[1..]);
      }
    }
  }

  /** Text already in normal form is its own normalisation. */
  lemma NormalFixed(s: string)
    requires IsNormal(s)
    ensures NormalizeText(s) == s
  {
    LoweredFixed(s);
    StripClean(s);
    CollapseSingleSpaces(s);
    TrimmedFixed(s);
  }

  /** `normalizeText` is idempotent. */
  lemma NormalizeIdempotent(text: string)
    ensures NormalizeText(NormalizeText(text)) == NormalizeText(text)
  {
    NormalizedIsNormal(text);
    NormalFixed(NormalizeText(text));
  }

  /** Normalisation ignores ASCII case. */
  lemma NormalizeIgnoresCase(text: string)
    ensures NormalizeText(Lower(text)) == NormalizeText(text)
  {
    LowerIsLowered(text);
    LoweredFixed(Lower(text));
  }

  /** `s.split(/\s+/)`: the pieces between maximal runs of whitespace. */
  function SplitOnSpaces(s: string): (parts: seq<string>)
    ensures |parts| >= 1
    decreases |s|
  {
    if s == [] then [[]]
    else if IsSpace(s[0]) then
      TrimStartShrinks(s);
      [[]] + SplitOnSpaces(TrimStart(s))
    else
      var rest := SplitOnSpaces(s[1..]);
      [[s[0]] + rest[0]] + rest[1..]
  }

  /** On text whose only whitespace is single plain spaces, splitting on runs is splitting on `' '`. */
  lemma {:induction false} SplitOnSingleSpaces(s: string)
    requires AllNormal(s)
    requires NoDoubleSpace(s)
    ensures SplitOnSpaces(s) == Split(s, ' ')
  {
    if s != [] {
      NormalTail(s);
      SplitOnSingleSpaces(s[1..]);
    }
  }

  /** The only whitespace among the normal characters is the plain space. */
  lemma NormalCharSpace(c: char)
    requires IsNormalChar(c)
    ensures IsSpace(c) <==> c == ' '
  {
  }

  /**
   * The rest of a text of normal characters and single spaces is one too,
   * and `trimStart()` drops exactly a leading space.
   */
  lemma NormalTail(s: string)
    requires s != [] && AllNormal(s) && NoDoubleSpace(s)
    ensures AllNormal(s[1..]) && NoDoubleSpace(s[1..])
    ensures IsSpace(s[0]) <==> s[0] == ' '
    ensures IsSpace(s[0]) ==> TrimStart(s) == s[1..]
  {
    NormalCharSpace(s[0]);
    assert forall i :: 0 <= i < |s| - 1 ==> s[1..][i] == s[i + 1];
    if s[0] == ' ' {
      if |s| > 1 {
        NormalCharSpace(s[1]);
        assert s[1] != ' ';
      }
      TrimStartFixed(s[1..]);
    }
  }

  /** The word set of a normalised text: its pieces longer than two characters. */
  function Words(n: string): set<string> {
    set w | w in SplitOnSpaces(n) && |w| > 2
  }

  /**
   * The words of a normalised text are exactly its space-separated pieces
   * longer than two characters; joining those pieces with spaces gives the
   * text back, so no character is lost to the split.
   */
  lemma WordsOfNormal(n: string)
    requires IsNormal(n)
    ensures forall w :: w in Words(n) <==> w in Split(n, ' ') && |w| > 2
    ensures Join(SplitOnSpaces(n), ' ') == n
    ensures forall w :: w in Words(n) ==> |w| > 2 && ' ' !in w
  {
    SplitOnSingleSpaces(n);
    JoinSplit(n, ' ');
  }

  /**
   * The word-overlap test on two word sets: neither is empty and the shared
   * words make up at least four fifths of the larger one
   * (`overlap / max >= 0.8`, written as `5 * overlap >= 4 * max`).
   */
  predicate OverlapEnough(w1: set<string>, w2: set<string>) {
    w1 != {} && w2 != {} && 5 * |w1 * w2| >= 4 * Max(|w1|, |w2|)
  }

  /** `areQuestionsSimilar` on two normalised texts. */
  predicate SimilarNormalized(n1: string, n2: string) {
    n1 == n2 || OverlapEnough(Words(n1), Words(n2))
  }

  /** `areQuestionsSimilar`. */
  predicate Similar(q1: string, q2: string) {
    SimilarNormalized(NormalizeText(q1), NormalizeText(q2))
  }

  lemma OverlapStep(w1: set<string>, w2: set<string>, left: set<string>, w: string)
    requires w in left && left <= w1
    ensures |(w1 - (left - {w})) * w2| == |(w1 - left) * w2| + if w in w2 then 1 else 0
  {
    var seen := (w1 - left) * w2;
    assert w !in seen;
    assert (w1 - (left - {w})) * w2 == if w in w2 then seen + {w} else seen;
  }

  /** The loop of `areQuestionsSimilar` that counts the words of `w1` also in `w2`. */
  method CountOverlap(w1: set<string>, w2: set<string>) returns (overlap: nat)
    ensures overlap == |w1 * w2|
  {
    overlap := 0;
    var left := w1;
    while left != {}
      invariant left <= w1
      invariant overlap == |(w1 - left) * w2|
      decreases |left|
    {
      var w :| w in left;
      OverlapStep(w1, w2, left, w);
      if w in w2 {
        overlap := overlap + 1;
      }
      left := left - {w};
    }
    assert w1 - left == w1;
  }

  /** The comparison `areQuestionsSimilar` makes once both texts are normalised. */
  method CompareNormalized(n1: string, n2: string) returns (similar: bool)
    ensures similar == SimilarNormalized(n1, n2)
  {
    if n1 == n2 {
      return true;
    }
    var w1 := Words(n1);
    var w2 := Words(n2);
    if |w1| == 0 || |w2| == 0 {
      return false;
    }
    var overlap := CountOverlap(w1, w2);
    similar := 5 * overlap >= 4 * Max(|w1|, |w2|);
  }

  /** `areQuestionsSimilar`. */
  method AreQuestionsSimilar(q1: string, q2: string) returns (similar: bool)
    ensures similar == Similar(q1, q2)
  {
    similar := CompareNormalized(NormalizeText(q1), NormalizeText(q2));
  }

  /** Every question matches itself, the empty one included. */
  lemma SimilarReflexive(q: string)
    ensures Similar(q, q)
  {
  }

  lemma OverlapSymmetric(w1: set<string>, w2: set<string>)
    ensures OverlapEnough(w1, w2) == OverlapEnough(w2, w1)
  {
    assert w1 * w2 == w2 * w1;
  }

  /** Matching does not depend on the order of the two questions. */
  lemma SimilarSymmetric(q1: string, q2: string)
    ensures Similar(q1, q2) == Similar(q2, q1)
  {
    OverlapSymmetric(Words(NormalizeText(q1)), Words(NormalizeText(q2)));
  }

  /** Matching ignores ASCII case on either side. */
  lemma SimilarIgnoresCase(q1: string, q2: string)
    ensures Similar(Lower(q1), q2) == Similar(q1, q2)
    ensures Similar(q1, Lower(q2)) == Similar(q1, q2)
  {
    NormalizeIgnoresCase(q1);
    NormalizeIgnoresCase(q2);
  }

  /** Different texts without a long word on one side never match. */
  lemma NoWordsNoMatch(q1: string, q2: string)
    requires NormalizeText(q1) != NormalizeText(q2)
    requires Words(NormalizeText(q1)) == {} || Words(NormalizeText(q2)) == {}
    ensures !Similar(q1, q2)
  {
  }

  /**
   * Otherwise the texts match exactly when the shared words make up at
   * least four fifths of the larger word set.
   */
  lemma MatchThreshold(q1: string, q2: string)
    requires NormalizeText(q1) != NormalizeText(q2)
    ensures var w1 := Words(NormalizeText(q1));
      var w2 := Words(NormalizeText(q2));
      w1 != {} && w2 != {} ==> (Similar(q1, q2) <==> 5 * |w1 * w2| >= 4 * Max(|w1|, |w2|))
  {
  }

  lemma {:induction false} SubsetSize<T>(a: set<T>, b: set<T>)
    requires a <= b
    ensures |a| <= |b|
    decreases |a|
  {
    if a != {} {
      var x :| x in a;
      SubsetSize(a - {x}, b - {x});
    }
  }

  lemma OverlapNeedsCloseSizes(w1: set<string>, w2: set<string>)
    requires OverlapEnough(w1, w2)
    ensures 5 * Min(|w1|, |w2|) >= 4 * Max(|w1|, |w2|)
  {
    SubsetSize(w1 * w2, w1);
    SubsetSize(w1 * w2, w2);
  }

  /**
   * Two differently normalised texts can only match when their word sets
   * are within a quarter of each other's size: the smaller has at least
   * four fifths as many words as the larger.
   */
  lemma MatchNeedsCloseSizes(q1: string, q2: string)
    requires NormalizeText(q1) != NormalizeText(q2) && Similar(q1, q2)
    ensures var w1 := Words(NormalizeText(q1));
      var w2 := Words(NormalizeText(q2));
      w1 != {} && w2 != {} && 5 * Min(|w1|, |w2|) >= 4 * Max(|w1|, |w2|)
  {
    OverlapNeedsCloseSizes(Words(NormalizeText(q1)), Words(NormalizeText(q2)));
  }
}
