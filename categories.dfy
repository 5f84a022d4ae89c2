/**
 * The fixed category list, its membership test and the display form of a
 * category identifier (lib/categories.ts).
 */
module Categories {
  import opened Text

  /** The category identifiers, in the order of the source list. */
  const CATEGORIES: seq<string> := [
    "general_health", "nutrition", "fitness", "sleep", "mental_health",
    "medicine", "running", "parenting", "relationships", "cooking",
    "cleaning", "home_improvement", "science", "geography", "wildlife",
    "nature", "technology", "productivity", "self_improvement", "money",
    "travel", "lifestyle", "general_knowledge"
  ]

  /** Lower-case ASCII letters with single `_` between non-empty words. */
  predicate IsLowerSnake(s: string) {
    && s != []
    && (forall i :: 0 <= i < |s| ==> IsLowerAscii(s[i]) || s[i] == '_')
    && s[0] != '_' && s[|s| - 1] != '_'
    && (forall i :: 0 <= i < |s| - 1 ==> !(s[i] == '_' && s[i + 1] == '_'))
  }

  /** The list holds 23 entries. */
  lemma CategoriesCount()
    ensures |CATEGORIES| == 23
  {
  }

  /** No identifier occurs twice in the list. */
  lemma CategoriesDistinct()
    ensures forall i, j :: 0 <= i < j < |CATEGORIES| ==> CATEGORIES[i] != CATEGORIES[j]
  {
  }

  lemma LowerSnakeFrom0()
    ensures forall i :: 0 <= i < 6 ==> IsLowerSnake(CATEGORIES[i])
  {
    assert IsLowerSnake("general_health");
    assert IsLowerSnake("nutrition");
    assert IsLowerSnake("fitness");
    assert IsLowerSnake("sleep");
    assert IsLowerSnake("mental_health");
    assert IsLowerSnake("medicine");
  }

  lemma LowerSnakeFrom6()
    ensures forall i :: 6 <= i < 12 ==> IsLowerSnake(CATEGORIES[i])
  {
    assert IsLowerSnake("running");
    assert IsLowerSnake("parenting");
    assert IsLowerSnake("relationships");
    assert IsLowerSnake("cooking");
    assert IsLowerSnake("cleaning");
    assert IsLowerSnake("home_improvement");
  }

  lemma LowerSnakeFrom12()
    ensures forall i :: 12 <= i < 18 ==> IsLowerSnake(CATEGORIES[i])
  {
    assert IsLowerSnake("science");
    assert IsLowerSnake("geography");
    assert IsLowerSnake("wildlife");
    assert IsLowerSnake("nature");
    assert IsLowerSnake("technology");
    assert IsLowerSnake("productivity");
  }

  lemma LowerSnakeFrom18()
    ensures forall i :: 18 <= i < 23 ==> IsLowerSnake(CATEGORIES[i])
  {
    assert IsLowerSnake("self_improvement");
    assert IsLowerSnake("money");
    assert IsLowerSnake("travel");
    assert IsLowerSnake("lifestyle");
    assert IsLowerSnake("general_knowledge");
  }

  /** Every identifier is lower_snake. */
  lemma CategoriesLowerSnake()
    ensures forall i :: 0 <= i < |CATEGORIES| ==> IsLowerSnake(CATEGORIES[i])
  {
    LowerSnakeFrom0();
    LowerSnakeFrom6();
    LowerSnakeFrom12();
    LowerSnakeFrom18();
  }

  /** `isValidCategory`: membership in the fixed list. */
  function IsValidCategory(category: string): (valid: bool)
    ensures valid <==> exists i :: 0 <= i < |CATEGORIES| && CATEGORIES[i] == category
  {
    category in CATEGORIES
  }

  /** `word.charAt(0).toUpperCase() + word.slice(1)`. */
  function Capitalize(word: string): (r: string)
    ensures |r| == |word|
  {
    if word == [] then [] else [UpperChar(word[0])] + word[1..]
  }

  function CapitalizeAll(words: seq<string>): (r: seq<string>)
    ensures |r| == |words|
  {
    if words == [] then [] else [Capitalize(words[0])] + CapitalizeAll(words[1..])
  }

  /** `formatCategoryName`: split on `_`, capitalise each piece, join with a space. */
  function FormatCategoryName(category: string): string {
    Join(CapitalizeAll(Split(category, '_')), ' ')
  }

  /**
   * Character `i` of the display form, stated one position at a time: an
   * underscore becomes a space, the first character of each segment is
   * upper-cased, every other character is kept.
   */
  function FormattedAt(category: string, i: nat): char
    requires i < |category|
  {
    if category[i] == '_' then ' '
    else if i == 0 || category[i - 1] == '_' then UpperChar(category[i])
    else category[i]
  }

  /** Left-to-right reading of `FormattedAt`; `atStart` says a segment begins here. */
  function Formatted(s: string, atStart: bool): (r: string)
    ensures |r| == |s|
  {
    if s == [] then []
    else if s[0] == '_' then [' '] + Formatted(s[1..], true)
    else [if atStart then UpperChar(s[0]) else s[0]] + Formatted(s[1..], false)
  }

  lemma {:induction false} FormattedPointwise(s: string, atStart: bool, i: nat)
    requires i < |s|
    ensures Formatted(s, atStart)[i] ==
      if s[i] == '_' then ' '
      else if (i == 0 && atStart) || (i > 0 && s[i - 1] == '_') then UpperChar(s[i])
      else s[i]
  {
    if i > 0 {
      FormattedPointwise(s[1..], s[0] == '_', i - 1);
    }
  }

  /**
   * The split/capitalise/join pipeline equals the left-to-right reading;
   * the second conjunct is the same pipeline with the first piece left as is.
   */
  predicate FormatAgrees(s: string) {
    && Join(CapitalizeAll(Split(s, '_')), ' ') == Formatted(s, true)
    && Join([Split(s, '_')[0]] + CapitalizeAll(Split(s, '_')[1..]), ' ') == Formatted(s, false)
  }

  lemma {:induction false} FormatIsFormatted(s: string)
    ensures FormatAgrees(s)
  {
    if s != [] {
      FormatIsFormatted(s[1..]);
      if s[0] == '_' {
        FormatAfterUnderscore(s);
      } else {
        FormatAfterLetter(s);
      }
    }
  }

  lemma FormatAfterUnderscore(s: string)
    requires s != [] && s[0] == '_' && FormatAgrees(s[1..])
    ensures FormatAgrees(s)
  {
    var rest := Split(s[1..], '_');
    assert Split(s, '_') == [[]] + rest;
    assert CapitalizeAll([[]] + rest) == [[]] + CapitalizeAll(rest);
    assert ([[]] + rest)[1..] == rest;
  }

  lemma FormatAfterLetter(s: string)
    requires s != [] && s[0] != '_' && FormatAgrees(s[1..])
    ensures FormatAgrees(s)
  {
    var rest := Split(s[1..], '_');
    var parts := Split(s, '_');
    assert parts == [[s[0]] + rest[0]] + rest[1..];
    assert parts[1..] == rest[1..];
    assert Capitalize([s[0]] + rest[0]) == [UpperChar(s[0])] + rest[0];
    if |rest| > 1 {
      assert Join([rest[0]] + CapitalizeAll(rest[1..]), ' ')
          == rest[0] + [' '] + Join(CapitalizeAll(rest[1..]), ' ');
    }
  }

  /**
   * `formatCategoryName` keeps the length, turns every `_` into a space,
   * upper-cases the first character of each `_`-separated segment and keeps
   * every other character.
   */
  lemma FormatCategoryNameSpec(category: string)
    ensures |FormatCategoryName(category)| == |category|
    ensures forall i :: 0 <= i < |category| ==> FormatCategoryName(category)[i] == FormattedAt(category, i)
  {
    FormatIsFormatted(category);
    forall i | 0 <= i < |category|
      ensures FormatCategoryName(category)[i] == FormattedAt(category, i)
    {
      FormattedPointwise(category, true, i);
    }
  }

  /** The display form contains no underscore. */
  lemma FormatCategoryNameNoUnderscore(category: string)
    ensures '_' !in FormatCategoryName(category)
  {
    FormatCategoryNameSpec(category);
    var r := FormatCategoryName(category);
    forall i | 0 <= i < |r| ensures r[i] != '_' {
      assert r[i] == FormattedAt(category, i);
    }
  }
}
