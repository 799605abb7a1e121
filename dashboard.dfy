/**
 * The dashboard page's pure helpers: the category icon and colour
 * switches, the score colour bands, the category label rewriting and the
 * share of sessions per category.
 */
module Dashboard {
  import opened Text

  const Coding := "coding"
  const SystemDesign := "system_design"
  const Behavioral := "behavioral"

  datatype Icon = Code | Network | MessageSquare | Target

  /** `getCategoryIcon`. */
  function CategoryIcon(category: string): (icon: Icon)
    ensures icon == Code <==> category == Coding
    ensures icon == Network <==> category == SystemDesign
    ensures icon == MessageSquare <==> category == Behavioral
  {
    if category == Coding then Code
    else if category == SystemDesign then Network
    else if category == Behavioral then MessageSquare
    else Target
  }

  /** `getCategoryColor`. */
  function CategoryColor(category: string): (color: string)
    ensures color == "text-primary" <==> category == Coding
    ensures color == "text-accent" <==> category == SystemDesign
    ensures color == "text-secondary" <==> category == Behavioral
  {
    if category == Coding then "text-primary"
    else if category == SystemDesign then "text-accent"
    else if category == Behavioral then "text-secondary"
    else "text-muted-foreground"
  }

  /** Any category outside the three known ones gets the default icon and colour. */
  lemma UnknownCategoryDefaults(category: string)
    requires category != Coding && category != SystemDesign && category != Behavioral
    ensures CategoryIcon(category) == Target && CategoryColor(category) == "text-muted-foreground"
  {
  }

  /** `getScoreColor`: green from 80, yellow from 60, red below. */
  function ScoreColor(score: real): string {
    if score >= 80.0 then "text-green-500"
    else if score >= 60.0 then "text-yellow-500"
    else "text-red-500"
  }

  /** Every score falls in exactly one band, and the bands are 80 and up, 60 to 80, and below 60. */
  lemma ScoreColorBands(score: real)
    ensures ScoreColor(score) == "text-green-500" <==> score >= 80.0
    ensures ScoreColor(score) == "text-yellow-500" <==> 60.0 <= score < 80.0
    ensures ScoreColor(score) == "text-red-500" <==> score < 60.0
  {
  }

  /** `total > 0 ? (count / total) * 100 : 0`. */
  function Percentage(count: real, total: real): (p: real)
    ensures total <= 0.0 ==> p == 0.0
    ensures total > 0.0 ==> p * total == count * 100.0
  {
    if total > 0.0 then count / total * 100.0 else 0.0
  }

  /** A category's share of the sessions lies between 0 and 100. */
  lemma PercentageWithin(count: real, total: real)
    requires 0.0 <= count <= total
    ensures 0.0 <= Percentage(count, total) <= 100.0
  {
    if total > 0.0 {
      var q := count / total;
      assert q * total == count;
      assert (1.0 - q) * total >= 0.0;
    }
  }

  // ---------------------------------------------------------------------
  // formatCategory
  // ---------------------------------------------------------------------

  /** `s.replace(from, to)` with a one-character string pattern: only the first occurrence changes. */
  function ReplaceFirst(s: string, from: char, to: char): (r: string)
    ensures |r| == |s|
    ensures from !in s ==> r == s
  {
    var i := IndexOf(s, from);
    if i == |s| then s else s[..i] + [to] + s[i + 1..]
  }

  /** The first occurrence is replaced, and whatever follows it, later occurrences included, is untouched. */
  lemma ReplaceFirstAt(a: string, b: string, from: char, to: char)
    requires from !in a
    ensures ReplaceFirst(a + [from] + b, from, to) == a + [to] + b
  {
    IndexOfAfter(a, b, from);
    var s := a + [from] + b;
    assert s[..|a|] == a && s[|a| + 1..] == b;
  }

  /** `word.charAt(0).toUpperCase() + word.slice(1)`. */
  function Capitalize(word: string): (r: string)
    ensures |r| == |word|
    ensures word != [] ==> r[0] == UpperChar(word[0]) && r[1..] == word[1..]
  {
    if word == [] then [] else [UpperChar(word[0])] + word[1..]
  }

  function Capitalized(words: seq<string>): (r: seq<string>)
    ensures |r| == |words|
    ensures forall i :: 0 <= i < |words| ==> r[i] == Capitalize(words[i])
  {
    seq(|words|, i requires 0 <= i < |words| => Capitalize(words[i]))
  }

  /** The words of a category label: split on spaces after the first underscore became one. */
  function Words(category: string): seq<string> {
    Split(ReplaceFirst(category, '_', ' '), ' ')
  }

  /** `formatCategory`. */
  function FormatCategory(category: string): string {
    Join(" ", Capitalized(Words(category)))
  }

  lemma UpperCharSpace(c: char)
    ensures UpperChar(c) == ' ' <==> c == ' '
  {
  }

  /** Capitalizing introduces no space. */
  lemma CapitalizedClean(words: seq<string>)
    requires NoChar(words, ' ')
    ensures NoChar(Capitalized(words), ' ')
  {
    forall i | 0 <= i < |words| ensures ' ' !in Capitalized(words)[i] {
      var w := words[i];
      if w != [] {
        UpperCharSpace(w[0]);
        assert Capitalize(w) == [UpperChar(w[0])] + w[1..];
        assert ' ' !in w[1..];
      }
    }
  }

  /**
   * The formatted label has exactly the words of the rewritten category,
   * each capitalized: the same number of words, the same characters after
   * each word's first, and empty words still empty.
   */
  lemma FormatCategoryWords(category: string)
    ensures Split(FormatCategory(category), ' ') == Capitalized(Words(category))
    ensures |Split(FormatCategory(category), ' ')| == |Words(category)|
  {
    SplitPartsClean(ReplaceFirst(category, '_', ' '), ' ');
    CapitalizedClean(Words(category));
    SplitJoin(Capitalized(Words(category)), ' ');
  }

  lemma {:induction false} JoinLength(sep: string, xs: seq<string>, ys: seq<string>)
    requires |xs| == |ys|
    requires forall i :: 0 <= i < |xs| ==> |xs[i]| == |ys[i]|
    ensures |Join(sep, xs)| == |Join(sep, ys)|
    decreases |xs|
  {
    if |xs| > 1 {
      JoinLength(sep, xs[1..], ys[1..]);
    }
  }

  /** Formatting keeps the length of the label. */
  lemma FormatCategoryLength(category: string)
    ensures |FormatCategory(category)| == |category|
  {
    JoinLength(" ", Capitalized(Words(category)), Words(category));
    JoinSplit(ReplaceFirst(category, '_', ' '), ' ');
  }

  /** A label `a_b`, with no underscore in `a` and no space in either part, becomes two capitalized words. */
  lemma FormatTwoWords(category: string, a: string, b: string)
    requires category == a + ['_'] + b
    requires '_' !in a && ' ' !in a && ' ' !in b
    ensures FormatCategory(category) == Capitalize(a) + " " + Capitalize(b)
  {
    ReplaceFirstAt(a, b, '_', ' ');
    SplitFirst(a, b, ' ');
    SplitNone(b, ' ');
    assert Words(category) == [a, b];
    var cs := Capitalized([a, b]);
    assert cs == [Capitalize(a), Capitalize(b)];
    assert cs[1..] == [Capitalize(b)];
    assert Join(" ", cs) == cs[0] + " " + Join(" ", cs[1..]);
  }

  lemma NoSpaceOrUnderscore(w: string)
    requires forall i :: 0 <= i < |w| ==> 'a' <= w[i] <= 'z'
    ensures '_' !in w && ' ' !in w
  {
  }

  lemma CapitalizeSystem()
    ensures Capitalize("system") == "System" && Capitalize("design") == "Design"
  {
    assert UpperChar('s') == 'S' && UpperChar('d') == 'D';
  }

  /** `"system_design"` is shown as `"System Design"`. */
  lemma FormatSystemDesign(category: string)
    requires category == "system_design"
    ensures FormatCategory(category) == "System Design"
  {
    NoSpaceOrUnderscore("system");
    NoSpaceOrUnderscore("design");
    assert category == "system" + ['_'] + "design";
    FormatTwoWords(category, "system", "design");
    CapitalizeSystem();
    SystemDesignWords();
  }

  lemma SystemDesignWords()
    ensures "System" + " " + "Design" == "System Design"
  {
  }

  lemma CapitalizeAB()
    ensures Capitalize("a") == "A" && Capitalize("b_c") == "B_c"
  {
    assert UpperChar('a') == 'A' && UpperChar('b') == 'B';
  }

  /** Only the first underscore becomes a space: `"a_b_c"` is shown as `"A B_c"`. */
  lemma FormatOnlyFirstUnderscore(category: string)
    requires category == "a_b_c"
    ensures FormatCategory(category) == "A B_c"
  {
    NoSpaceOrUnderscore("a");
    assert ' ' !in "b_c";
    assert category == "a" + ['_'] + "b_c";
    FormatTwoWords(category, "a", "b_c");
    CapitalizeAB();
  }
}
