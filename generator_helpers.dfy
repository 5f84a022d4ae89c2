/**
 * The pure helpers of the daily generator
 * (lib/generator/generateDailyQuestions.ts): category normalisation, tag
 * parsing, the "Related Questions" block and the article body assembly.
 */
module GeneratorHelpers {
  import opened Basics
  import opened Text

  /** Free-text spellings of categories and the identifier each one stands for. */
  const CategoryAliases: map<string, string> := map[
    "productivity & work" := "productivity",
    "productivity" := "productivity",
    "fitness & exercise" := "fitness_exercise",
    "fitness" := "fitness_exercise",
    "relationships" := "relationships",
    "health & wellness" := "general_health",
    "general health" := "general_health",
    "nutrition & diet" := "nutrition",
    "sleep" := "sleep",
    "home & cleaning" := "home_cleaning",
    "cooking" := "cooking_food",
    "cooking & food" := "cooking_food",
    "money & finance" := "money_finance",
    "mental" := "mental_health",
    "mental health & mindset" := "mental_health",
    "mental health" := "mental_health",
    "animals & wildlife" := "animals_wildlife",
    "education & learning" := "education_learning",
    "geography" := "geography",
    "history" := "history",
    "hobbies & diy" := "hobbies_diy",
    "hobbies" := "hobbies_diy",
    "miscellaneous" := "miscellaneous",
    "outdoor & nature" := "outdoor_nature",
    "outdoor" := "outdoor_nature",
    "nature" := "outdoor_nature",
    "science" := "science",
    "technology" := "science",
    "travel" := "science"
  ]

  /**
   * `normalizeCategory`: nothing for an absent or empty input; otherwise the
   * trimmed, lower-cased text, replaced by its table entry when it has one.
   */
  function NormalizeCategory(raw: Option<string>): (r: Option<string>)
    ensures raw.None? || raw.value == [] ==> r.None?
    ensures raw.Some? && raw.value != [] ==>
      && r.Some?
      && var key := Lower(Trim(raw.value));
         r.value == if key in CategoryAliases then CategoryAliases[key] else key
  {
    if raw.None? || raw.value == [] then None
    else
      var key := Lower(Trim(raw.value));
      Some(if key in CategoryAliases then CategoryAliases[key] else key)
  }

  /** The identifiers the table maps to. */
  const CategoryTargets: set<string> := {
    "productivity",
    "fitness_exercise",
    "relationships",
    "general_health",
    "nutrition",
    "sleep",
    "home_cleaning",
    "cooking_food",
    "money_finance",
    "mental_health",
    "animals_wildlife",
    "education_learning",
    "geography",
    "history",
    "hobbies_diy",
    "miscellaneous",
    "outdoor_nature",
    "science"
  }

  /** Lower-case ASCII letters and underscores only, and not empty. */
  predicate IsIdentifier(t: string) {
    t != [] && forall i :: 0 <= i < |t| ==> IsLowerAscii(t[i]) || t[i] == '_'
  }

  /** A table target is an identifier and, when it is also a key, maps to itself. */
  predicate IsStableTarget(t: string) {
    IsIdentifier(t) && (t in CategoryAliases ==> CategoryAliases[t] == t)
  }

  lemma TableMapsIntoTargets()
    ensures forall k :: k in CategoryAliases ==> CategoryAliases[k] in CategoryTargets
  {
  }

  lemma TargetsStable0()
    ensures IsStableTarget("productivity") && IsStableTarget("fitness_exercise")
  {
  }

  lemma TargetsStable1()
    ensures IsStableTarget("relationships") && IsStableTarget("general_health")
  {
  }

  lemma TargetsStable2()
    ensures IsStableTarget("nutrition") && IsStableTarget("sleep")
  {
  }

  lemma TargetsStable3()
    ensures IsStableTarget("home_cleaning") && IsStableTarget("cooking_food")
  {
  }

  lemma TargetsStable4()
    ensures IsStableTarget("money_finance") && IsStableTarget("mental_health")
  {
  }

  lemma TargetsStable5()
    ensures IsStableTarget("animals_wildlife") && IsStableTarget("education_learning")
  {
  }

  lemma TargetsStable6()
    ensures IsStableTarget("geography") && IsStableTarget("history")
  {
  }

  lemma TargetsStable7()
    ensures IsStableTarget("hobbies_diy") && IsStableTarget("miscellaneous")
  {
  }

  lemma TargetsStable8()
    ensures IsStableTarget("outdoor_nature") && IsStableTarget("science")
  {
  }

  lemma TargetsStable()
    ensures forall t :: t in CategoryTargets ==> IsStableTarget(t)
  {
    TargetsStable0();
    TargetsStable1();
    TargetsStable2();
    TargetsStable3();
    TargetsStable4();
    TargetsStable5();
    TargetsStable6();
    TargetsStable7();
    TargetsStable8();
  }

  /** No table target is a key that maps elsewhere. */
  lemma AliasTargetsStable()
    ensures forall k :: k in CategoryAliases ==> IsStableTarget(CategoryAliases[k])
  {
    TableMapsIntoTargets();
    TargetsStable();
  }

  /**
   * Normalising a normalised category changes nothing, as long as the first
   * result is not the empty string.
   */
  lemma NormalizeCategoryIdempotent(raw: Option<string>)
    requires NormalizeCategory(raw).Some? && NormalizeCategory(raw).value != []
    ensures NormalizeCategory(NormalizeCategory(raw)) == NormalizeCategory(raw)
  {
    var key := Lower(Trim(raw.value));
    var v := NormalizeCategory(raw).value;
    if key in CategoryAliases {
      assert IsStableTarget(v) by {
        AliasTargetsStable();
      }
      IdentifierIsNormal(v);
    } else {
      assert IsTrimmed(key) && IsLowered(key) by {
        LowerTrimCommute(raw.value);
        LowerIsLowered(Trim(raw.value));
      }
    }
    NormalFixed(v);
  }

  /** An identifier is already trimmed and lower-cased. */
  lemma IdentifierIsNormal(t: string)
    requires IsIdentifier(t)
    ensures IsTrimmed(t) && IsLowered(t)
  {
    assert forall i :: 0 <= i < |t| ==> !IsSpace(t[i]) && !IsUpperAscii(t[i]);
  }

  /** A trimmed, lower-cased category that the table maps to itself, if at all, normalises to itself. */
  lemma NormalFixed(v: string)
    requires v != [] && IsTrimmed(v) && IsLowered(v)
    requires v in CategoryAliases ==> CategoryAliases[v] == v
    ensures NormalizeCategory(Some(v)) == Some(v)
  {
    TrimmedFixed(v);
    LoweredFixed(v);
  }

  /** A whitespace-only category normalises to the empty string, which then normalises to nothing. */
  lemma NormalizeCategoryBlank()
    ensures NormalizeCategory(Some(" ")) == Some("")
    ensures NormalizeCategory(Some("")) == None
  {
    assert TrimStart(" ") == "";
  }

  /**
   * The category lookup of the generator: the normalised category if the
   * table of known category identifiers has it.
   */
  function ResolveCategory(raw: Option<string>, known: set<string>): (r: Option<string>)
    ensures r.Some? <==> NormalizeCategory(raw).Some? && NormalizeCategory(raw).value in known
    ensures r.Some? ==> r == NormalizeCategory(raw)
  {
    var n := NormalizeCategory(raw);
    if n.Some? && n.value in known then n else None
  }

  /** The shapes the `tags` column of an idea can hold. */
  datatype TagsField = TagText(text: string) | TagList(items: seq<string>) | TagOther

  function TrimEach(pieces: seq<string>): (r: seq<string>)
    ensures |r| == |pieces|
    ensures forall i :: 0 <= i < |r| ==> r[i] == Trim(pieces[i])
  {
    if pieces == [] then [] else [Trim(pieces[0])] + TrimEach(pieces[1..])
  }

  function DropEmpty(pieces: seq<string>): (r: seq<string>)
    ensures |r| <= |pieces|
    ensures forall i :: 0 <= i < |r| ==> r[i] != [] && r[i] in pieces
    ensures forall p :: p in pieces && p != [] ==> p in r
  {
    if pieces == [] then []
    else if pieces[0] == [] then DropEmpty(pieces[1..])
    else [pieces[0]] + DropEmpty(pieces[1..])
  }

  /** Trimming pieces that hold no comma gives trimmed pieces that hold no comma. */
  lemma TrimEachNoComma(pieces: seq<string>)
    requires forall i :: 0 <= i < |pieces| ==> ',' !in pieces[i]
    ensures forall t :: t in TrimEach(pieces) ==> IsTrimmed(t) && ',' !in t
  {
    var r := TrimEach(pieces);
    forall i | 0 <= i < |r| ensures IsTrimmed(r[i]) && ',' !in r[i] {
      TrimKeepsOut(pieces[i], ',');
    }
  }

  /**
   * Tag parsing: a string is split on commas, each piece trimmed and the
   * empty pieces dropped; a list is kept as it is; anything else is no tags.
   */
  function ParseTags(tags: TagsField): (r: seq<string>)
    ensures tags.TagList? ==> r == tags.items
    ensures tags.TagOther? ==> r == []
    ensures tags.TagText? ==> forall i :: 0 <= i < |r| ==>
      r[i] != [] && IsTrimmed(r[i]) && ',' !in r[i]
  {
    match tags
    case TagText(s) =>
      TrimEachNoComma(Split(s, ','));
      DropEmpty(TrimEach(Split(s, ',')))
    case TagList(items) => items
    case TagOther => []
  }

  /** A tag that survives parsing as it is. */
  predicate IsCleanTag(t: string) {
    t != [] && IsTrimmed(t) && ',' !in t
  }

  lemma {:induction false} TrimEachClean(tags: seq<string>)
    requires forall i :: 0 <= i < |tags| ==> IsCleanTag(tags[i])
    ensures TrimEach(tags) == tags
  {
    if tags != [] {
      TrimmedFixed(tags[0]);
      TrimEachClean(tags[1..]);
    }
  }

  lemma {:induction false} DropEmptyClean(tags: seq<string>)
    requires forall i :: 0 <= i < |tags| ==> tags[i] != []
    ensures DropEmpty(tags) == tags
  {
    if tags != [] {
      DropEmptyClean(tags[1..]);
    }
  }

  lemma {:induction false} TrimEachAppend(x: seq<string>, y: seq<string>)
    ensures TrimEach(x + y) == TrimEach(x) + TrimEach(y)
  {
    if x != [] {
      var t := Trim(x[0]);
      assert (x + y)[0] == x[0] && (x + y)[1..] == x[1..] + y;
      assert TrimEach(x + y) == [t] + TrimEach(x[1..] + y);
      TrimEachAppend(x[1..], y);
      assert TrimEach(x) == [t] + TrimEach(x[1..]);
      assert [t] + (TrimEach(x[1..]) + TrimEach(y)) == ([t] + TrimEach(x[1..])) + TrimEach(y);
    } else {
      assert x + y == y;
    }
  }

  lemma {:induction false} DropEmptyAppend(x: seq<string>, y: seq<string>)
    ensures DropEmpty(x + y) == DropEmpty(x) + DropEmpty(y)
  {
    if x != [] {
      assert (x + y)[0] == x[0] && (x + y)[1..] == x[1..] + y;
      DropEmptyAppend(x[1..], y);
    } else {
      assert x + y == y;
    }
  }

  /**
   * Tags are parsed piece by piece: the tags of two texts joined by a comma
   * are the tags of the first followed by those of the second.
   */
  lemma ParseTagsAppend(a: string, b: string)
    ensures ParseTags(TagText(a + "," + b)) == ParseTags(TagText(a)) + ParseTags(TagText(b))
  {
    SplitAppend(a, b, ',');
    TrimEachAppend(Split(a, ','), Split(b, ','));
    DropEmptyAppend(TrimEach(Split(a, ',')), TrimEach(Split(b, ',')));
  }

  /** A text without a comma is one tag, its trimmed self, or none when only whitespace. */
  lemma ParseTagsSingle(s: string)
    requires ',' !in s
    ensures ParseTags(TagText(s)) == if Trim(s) == [] then [] else [Trim(s)]
  {
    SplitNoSeparator(s, ',');
    assert TrimEach([s]) == [Trim(s)];
    assert DropEmpty([Trim(s)]) == if Trim(s) == [] then [] else [Trim(s)] by {
      assert [Trim(s)][1..] == [];
    }
  }

  /** Writing clean tags as a comma-separated string and parsing it gives them back. */
  lemma ParseTagsRoundTrip(tags: seq<string>)
    requires forall i :: 0 <= i < |tags| ==> IsCleanTag(tags[i])
    ensures ParseTags(TagText(Join(tags, ','))) == tags
  {
    if tags == [] {
      assert Split([], ',') == [[]];
      assert TrimEach([[]]) == [[]];
    } else {
      SplitJoin(tags, ',');
      TrimEachClean(tags);
      DropEmptyClean(tags);
    }
  }

  /** The inserted question's tags: the generated ones if there are any, else the idea's. */
  function QuestionTags(generated: seq<string>, ideaTags: seq<string>): (r: seq<string>)
    ensures generated != [] ==> r == generated
    ensures generated == [] ==> r == ideaTags
  {
    if |generated| > 0 then generated else ideaTags
  }

  /** A candidate for the related-questions list: its text and slug. */
  datatype RelatedLink = RelatedLink(question: string, slug: string)

  const RelatedTitle: string := "## Related Questions"

  /** The heading of the block, preceded by a blank line. */
  const RelatedHeading: string := "\n\n" + RelatedTitle

  /** `- [question](/questions/slug)` */
  function LinkLine(q: RelatedLink): string {
    "- [" + q.question + "](/questions/" + q.slug + ")"
  }

  function LinkLines(qs: seq<RelatedLink>): (r: seq<string>)
    ensures |r| == |qs|
    ensures forall i :: 0 <= i < |qs| ==> r[i] == LinkLine(qs[i])
  {
    if qs == [] then [] else [LinkLine(qs[0])] + LinkLines(qs[1..])
  }

  /**
   * `buildRelatedQuestionsBlock` after its query: nothing when fewer than
   * three candidates came back, otherwise the heading and one link line for
   * each of the first six candidates, joined with newlines.
   */
  function RelatedQuestionsBlock(candidates: seq<RelatedLink>): string {
    if |candidates| < 3 then ""
    else Join([RelatedHeading] + LinkLines(candidates[..Min(6, |candidates|)]), '\n')
  }

  predicate NoNewline(q: RelatedLink) {
    '\n' !in q.question && '\n' !in q.slug
  }

  lemma LinkLineNoNewline(q: RelatedLink)
    requires NoNewline(q)
    ensures '\n' !in LinkLine(q)
  {
  }

  /** The heading line starts with two empty lines. */
  lemma NewlinesFirst(t: string, j: string)
    ensures ['\n', '\n'] + t + ['\n'] + j == [] + ['\n'] + ([] + ['\n'] + (t + ['\n'] + j))
  {
  }

  /**
   * Splitting on newlines a text that starts with two newlines, then a
   * newline-free line `t`, gives two empty lines, `t` and the rest's lines.
   */
  lemma SplitBlankLines(t: string, j: string)
    requires '\n' !in t
    ensures Split(['\n', '\n'] + t + ['\n'] + j, '\n') == ["", "", t] + Split(j, '\n')
  {
    var x := t + ['\n'] + j;
    NewlinesFirst(t, j);
    SplitAfterPiece([], [] + ['\n'] + x, '\n');
    SplitAfterPiece([], x, '\n');
    SplitAfterPiece(t, j, '\n');
  }

  lemma LinkLinesNoNewline(qs: seq<RelatedLink>)
    requires forall i :: 0 <= i < |qs| ==> NoNewline(qs[i])
    ensures forall i :: 0 <= i < |qs| ==> '\n' !in LinkLines(qs)[i]
  {
    forall i | 0 <= i < |qs| ensures '\n' !in LinkLines(qs)[i] {
      LinkLineNoNewline(qs[i]);
    }
  }

  /**
   * The block is empty exactly when there are fewer than three candidates;
   * otherwise its lines are two blank lines, the heading, and one link per
   * candidate for the first six (when no text holds a newline).
   */
  lemma RelatedQuestionsBlockLines(candidates: seq<RelatedLink>)
    requires forall i :: 0 <= i < |candidates| ==> NoNewline(candidates[i])
    ensures RelatedQuestionsBlock(candidates) == [] <==> |candidates| < 3
    ensures |candidates| >= 3 ==>
      Split(RelatedQuestionsBlock(candidates), '\n')
        == ["", "", RelatedTitle] + LinkLines(candidates[..Min(6, |candidates|)])
  {
    if |candidates| >= 3 {
      var shown := candidates[..Min(6, |candidates|)];
      var links := LinkLines(shown);
      LinkLinesNoNewline(shown);
      var j := Join(links, '\n');
      JoinCons(RelatedHeading, links, '\n');
      assert RelatedQuestionsBlock(candidates) == RelatedHeading + ['\n'] + j;
      SplitJoin(links, '\n');
      assert '\n' !in RelatedTitle;
      SplitBlankLines(RelatedTitle, j);
    }
  }

  /**
   * `[baseBody, related].filter(Boolean).join('\n\n')`: the generated body
   * followed by the related block, separated by a blank line when both are
   * present.
   */
  function CombineBody(base: string, related: string): (body: string)
    ensures StartsWith(body, base) && EndsWith(body, related)
    ensures body == [] <==> base == [] && related == []
    ensures |body| == |base| + |related| + (if base != [] && related != [] then 2 else 0)
    ensures base != [] && related != [] ==> body[|base|..|base| + 2] == "\n\n"
  {
    if base == [] then related
    else if related == [] then base
    else base + "\n\n" + related
  }

  /** `x || null` for a string: the empty string counts as absent. */
  function OrNull(s: string): (r: Option<string>)
    ensures r.None? <==> s == []
    ensures r.Some? ==> r.value == s
  {
    if s == [] then None else Some(s)
  }
}
