/**
 * The DOM-free helpers of `TextFormatters`: link brackets, path rebasing,
 * class/id selector splitting, ordered-list numbering and prefixes, list
 * line breaks and prefix widths, the blockquote transform and the
 * horizontal-rule length.
 */
module TextFormatters {
  import opened Wrappers
  import Strings
  import Numbering

  // ---------------------------------------------------------------- withBrackets

  /** `withBrackets`: absent brackets count as two empty strings. */
  function WithBrackets(str: string, brackets: Option<(string, string)>): (r: string)
    ensures brackets.None? ==> r == str
    ensures brackets.Some? ==>
      var (left, right) := brackets.value;
      |r| == |left| + |str| + |right| && r[..|left|] == left
      && r[|left|..|left| + |str|] == str && r[|left| + |str|..] == right
  {
    match brackets
    case None => str
    case Some((left, right)) => left + str + right
  }

  // ---------------------------------------------------------------- pathRewrite

  /**
   * `pathRewrite`: the path goes through the rewriter if there is one; a result
   * starting with '/' is then rebased on `baseUrl` without its trailing slashes.
   * An empty rewritten path makes `modifiedPath[0]` throw.
   */
  function PathRewrite(path: string, rewriter: Option<string -> string>, baseUrl: Option<string>): (r: Outcome<string>)
    ensures var modified := if rewriter.Some? then rewriter.value(path) else path;
      && (r.Failure? <==> modified == [])
      && (r.Success? && modified[0] == '/' && baseUrl.Some? ==>
            exists k :: 0 <= k <= |baseUrl.value| && r.value == baseUrl.value[..k] + modified
              && (k == 0 || baseUrl.value[k - 1] != '/')
              && forall j :: k <= j < |baseUrl.value| ==> baseUrl.value[j] == '/')
      && (r.Success? && (modified[0] != '/' || baseUrl.None?) ==> r.value == modified)
  {
    var modified := if rewriter.Some? then rewriter.value(path) else path;
    if modified == [] then Failure("index out of range")
    else if modified[0] == '/' && baseUrl.Some? then
      Success(Strings.TrimEndChar(baseUrl.value, '/') + modified)
    else Success(modified)
  }

  /** A root-relative link is rebased on the configured base URL. */
  lemma PathRewriteExample()
    ensures PathRewrite("/test.html", None, Some("https://example.com")) == Success("https://example.com/test.html")
    ensures PathRewrite("/test.html", None, Some("https://example.com//")) == Success("https://example.com/test.html")
    ensures PathRewrite("test.html", None, Some("https://example.com")) == Success("test.html")
  {
    var base := "https://example.com";
    assert base[|base| - 1] == 'm';
    assert Strings.TrimEndChar(base, '/') == base;
    assert (base + "//")[..|base| + 1] == base + "/" && (base + "/")[..|base|] == base;
    assert Strings.TrailingRun(base + "/", '/') == |base|;
    assert Strings.TrimEndChar(base + "//", '/') == base;
    assert base + "//" == "https://example.com//";
    assert base + "/test.html" == "https://example.com/test.html";
  }

  // ---------------------------------------------------------------- SplitClassesAndIds

  /** The names, without their marker, of the selectors that start with `marker`, in order. */
  function SelectorNames(selectors: seq<string>, marker: char): seq<string> {
    if selectors == [] then []
    else
      var last := selectors[|selectors| - 1];
      SelectorNames(selectors[..|selectors| - 1], marker) + (if last != [] && last[0] == marker then [last[1..]] else [])
  }

  /** The selectors that start with `marker`, in order. */
  function Marked(selectors: seq<string>, marker: char): seq<string> {
    if selectors == [] then []
    else
      var last := selectors[|selectors| - 1];
      Marked(selectors[..|selectors| - 1], marker) + (if last != [] && last[0] == marker then [last] else [])
  }

  /** Each name with its marker put back. */
  function Remarked(names: seq<string>, marker: char): (r: seq<string>)
    ensures |r| == |names|
  {
    if names == [] then [] else Remarked(names[..|names| - 1], marker) + [[marker] + names[|names| - 1]]
  }

  /** Putting the marker back on the names gives exactly the marked selectors. */
  lemma {:induction false} SelectorNamesRoundTrip(selectors: seq<string>, marker: char)
    ensures Remarked(SelectorNames(selectors, marker), marker) == Marked(selectors, marker)
  {
    if selectors != [] {
      var front, last := selectors[..|selectors| - 1], selectors[|selectors| - 1];
      SelectorNamesRoundTrip(front, marker);
      var names := SelectorNames(front, marker);
      if last != [] && last[0] == marker {
        assert (names + [last[1..]])[..|names|] == names;
        assert [marker] + last[1..] == last;
      } else {
        assert names + [] == names;
      }
    }
  }

  /** No selector is both a class and an id, so the two lists together are no longer than the input. */
  lemma {:induction false} ClassesAndIdsDisjoint(selectors: seq<string>)
    ensures |SelectorNames(selectors, '.')| + |SelectorNames(selectors, '#')| <= |selectors|
  {
    if selectors != [] {
      ClassesAndIdsDisjoint(selectors[..|selectors| - 1]);
    }
  }

  /** `SplitClassesAndIds`: '.'-selectors go to the classes, '#'-selectors to the ids, others are dropped. */
  method SplitClassesAndIds(selectors: seq<string>) returns (classes: seq<string>, ids: seq<string>)
    ensures classes == SelectorNames(selectors, '.')
    ensures ids == SelectorNames(selectors, '#')
  {
    classes, ids := [], [];
    var i := 0;
    while i < |selectors|
      invariant 0 <= i <= |selectors|
      invariant classes == SelectorNames(selectors[..i], '.')
      invariant ids == SelectorNames(selectors[..i], '#')
    {
      var selector := selectors[i];
      assert selectors[..i + 1][..i] == selectors[..i];
      if selector != [] && selector[0] == '.' {
        classes := classes + [selector[1..]];
      } else if selector != [] && selector[0] == '#' {
        ids := ids + [selector[1..]];
      }
      i := i + 1;
    }
    assert selectors[..i] == selectors;
  }

  // ---------------------------------------------------------------- Ordered-list numbering

  /** The index function chosen by `getOrderedListIndexFunction`. */
  datatype IndexStyle = LowerLetters | UpperLetters | LowerRoman | UpperRoman | Decimal

  /** `getOrderedListIndexFunction`: "a", "A", "i", "I", and decimal for anything else. */
  function IndexStyleOf(olType: string): IndexStyle {
    if olType == "a" then LowerLetters
    else if olType == "A" then UpperLetters
    else if olType == "i" then LowerRoman
    else if olType == "I" then UpperRoman
    else Decimal
  }

  /**
   * The chosen index function applied to `i`. `NumberToRoman` throws outside
   * 0..3999 (a minus sign does not parse as a digit, a thousands digit of 4 or
   * more indexes past its tables).
   */
  function FormatIndex(style: IndexStyle, i: int): Outcome<string> {
    match style
    case LowerLetters => Success(Numbering.LetterSequence(i, 'a', 26))
    case UpperLetters => Success(Numbering.LetterSequence(i, 'A', 26))
    case LowerRoman =>
      if 0 <= i <= 3999 then Success(Numbering.ToLowerAscii(Numbering.NumberToRoman(i))) else Failure("index out of range")
    case UpperRoman =>
      if 0 <= i <= 3999 then Success(Numbering.NumberToRoman(i)) else Failure("index out of range")
    case Decimal => Success(Numbering.DecimalString(i))
  }

  /** Every style's index reads back as the number it was made from. */
  lemma FormatIndexReadsBack(style: IndexStyle, i: int)
    requires 1 <= i <= 3999
    ensures FormatIndex(style, i).Success?
    ensures style == LowerLetters ==> Numbering.LetterValue(Numbering.LetterCodes(FormatIndex(style, i).value, 'a'), 26) == i
    ensures style == UpperLetters ==> Numbering.LetterValue(Numbering.LetterCodes(FormatIndex(style, i).value, 'A'), 26) == i
    ensures style == UpperRoman ==> Numbering.RomanValue(FormatIndex(style, i).value) == i
    ensures style == LowerRoman ==> FormatIndex(style, i).value == Numbering.ToLowerAscii(FormatIndex(UpperRoman, i).value)
    ensures style == Decimal ==> Numbering.DecimalValue(FormatIndex(style, i).value) == i
  {
    match style
    case LowerLetters => Numbering.LetterSequenceRoundTrip(i, 'a', 26);
    case UpperLetters => Numbering.LetterSequenceRoundTrip(i, 'A', 26);
    case UpperRoman => Numbering.NumberToRomanRoundTrip(i);
    case LowerRoman =>
    case Decimal => Numbering.DecimalRoundTrip(i);
  }

  /** The `nextPrefixCallback` of ordered lists: a counter that starts at the `start` attribute. */
  class OrderedListPrefixes {
    const style: IndexStyle
    var nextIndex: int

    constructor (start: int, olType: string)
      ensures style == IndexStyleOf(olType) && nextIndex == start
    {
      style := IndexStyleOf(olType);
      nextIndex := start;
    }

    /** `" " + indexFunction(nextIndex++) + ". "`: the counter moves on even when the index function throws. */
    method NextPrefix() returns (prefix: Outcome<string>)
      modifies this
      ensures nextIndex == old(nextIndex) + 1
      ensures prefix.Success? <==> FormatIndex(style, old(nextIndex)).Success?
      ensures prefix.Success? ==> prefix.value == " " + FormatIndex(style, old(nextIndex)).value + ". "
    {
      var index := nextIndex;
      nextIndex := nextIndex + 1;
      var text := FormatIndex(style, index);
      if text.Success? {
        prefix := Success(" " + text.value + ". ");
      } else {
        prefix := Failure(text.error);
      }
    }
  }

  /** Indexes of lists of type "a": the letters start again after "z" with two of them. */
  lemma FormatIndexLetterExamples()
    ensures FormatIndex(IndexStyleOf("a"), 1) == Success("a")
    ensures FormatIndex(IndexStyleOf("a"), 27) == Success("aa")
  {
    Numbering.LetterSequenceExamples();
  }

  /** Indexes of lists of type "I": roman numerals, which stop at 3999. */
  lemma FormatIndexRomanExamples()
    ensures FormatIndex(IndexStyleOf("I"), 9) == Success("IX")
    ensures FormatIndex(IndexStyleOf("I"), 4000).Failure?
  {
    assert IndexStyleOf("I") == UpperRoman;
    Numbering.RomanUnits(9);
    Numbering.RomanNine();
  }

  /** Indexes of lists of type "1": the number in decimal. */
  lemma FormatIndexDecimalExample()
    ensures FormatIndex(IndexStyleOf("1"), 2) == Success("2")
  {
  }

  // ---------------------------------------------------------------- formatList

  /** The list item prefix: nested lists (inside an LI) drop its leading white space. */
  function ListPrefix(isNestedList: bool, prefix: string): (r: string)
    ensures !isNestedList ==> r == prefix
    ensures isNestedList ==>
      && (r == [] || !Strings.IsWhiteSpace(r[0]))
      && Strings.Visible(r) == Strings.Visible(prefix)
      && exists k :: 0 <= k <= |prefix| && r == prefix[k..]
  {
    if isNestedList then
      Strings.VisibleTrimStart(prefix);
      Strings.TrimStart(prefix)
    else prefix
  }

  /**
   * The line breaks around a list: 1 and 1 for a nested list, otherwise the
   * formatter options or 2.
   */
  function ListLineBreaks(isNestedList: bool, leading: Option<int>, trailing: Option<int>): (r: (int, int))
    ensures isNestedList ==> r == (1, 1)
    ensures !isNestedList ==> r.0 == (if leading.Some? then leading.value else 2)
    ensures !isNestedList ==> r.1 == (if trailing.Some? then trailing.value else 2)
  {
    if isNestedList then (1, 1)
    else (if leading.Some? then leading.value else 2, if trailing.Some? then trailing.value else 2)
  }

  /** The `maxPrefixLength` loop of `formatList`: the longest prefix length, 0 for none. */
  method MaxPrefixLength(prefixes: seq<string>) returns (m: nat)
    ensures forall k :: 0 <= k < |prefixes| ==> |prefixes[k]| <= m
    ensures m == 0 || exists k :: 0 <= k < |prefixes| && |prefixes[k]| == m
  {
    m := 0;
    var i := 0;
    while i < |prefixes|
      invariant 0 <= i <= |prefixes|
      invariant forall k :: 0 <= k < i ==> |prefixes[k]| <= m
      invariant m == 0 || exists k :: 0 <= k < i && |prefixes[k]| == m
    {
      if |prefixes[i]| > m {
        m := |prefixes[i]|;
      }
      i := i + 1;
    }
  }

  // ---------------------------------------------------------------- blockquote

  /** Every line with `prefix` in front. */
  function PrefixEach(prefix: string, lines: seq<string>): (r: seq<string>)
    ensures |r| == |lines| && forall k :: 0 <= k < |lines| ==> r[k] == prefix + lines[k]
  {
    if lines == [] then [] else [prefix + lines[0]] + PrefixEach(prefix, lines[1..])
  }

  /** Every line with its first `n` characters removed. */
  function DropEach(n: nat, lines: seq<string>): (r: seq<string>)
    requires forall k :: 0 <= k < |lines| ==> |lines[k]| >= n
    ensures |r| == |lines| && forall k :: 0 <= k < |lines| ==> r[k] == lines[k][n..]
  {
    if lines == [] then [] else [lines[0][n..]] + DropEach(n, lines[1..])
  }

  /** The text the blockquote transform quotes: trimmed of '\n' at both ends when asked. */
  function QuotedText(str: string, trimEmptyLines: bool): string {
    if trimEmptyLines then Strings.TrimChar(str, '\n') else str
  }

  /** The blockquote block transform: "> " in front of every line. */
  function Blockquote(str: string, trimEmptyLines: bool): string {
    Strings.Join(PrefixEach("> ", Strings.Split(QuotedText(str, trimEmptyLines), '\n')), "\n")
  }

  /** The inverse of the blockquote transform: strip "> " from every line. */
  function Unquote(quoted: string): string
    requires forall k :: 0 <= k < |Strings.Split(quoted, '\n')| ==> |Strings.Split(quoted, '\n')[k]| >= 2
  {
    Strings.Join(DropEach(2, Strings.Split(quoted, '\n')), "\n")
  }

  /**
   * The transform keeps the lines of the quoted text, each behind "> ", and
   * stripping those prefixes gives the quoted text back.
   */
  lemma BlockquoteRoundTrip(str: string, trimEmptyLines: bool)
    ensures var lines := Strings.Split(Blockquote(str, trimEmptyLines), '\n');
      |lines| == |Strings.Split(QuotedText(str, trimEmptyLines), '\n')|
      && (forall k :: 0 <= k < |lines| ==> |lines[k]| >= 2 && lines[k][..2] == "> ")
      && Unquote(Blockquote(str, trimEmptyLines)) == QuotedText(str, trimEmptyLines)
  {
    var text := QuotedText(str, trimEmptyLines);
    var lines := Strings.Split(text, '\n');
    var quoted := PrefixEach("> ", lines);
    Strings.SplitPieces(text, '\n');
    forall k | 0 <= k < |quoted| ensures '\n' !in quoted[k] {
      assert quoted[k] == "> " + lines[k];
    }
    Strings.SplitJoin(quoted, '\n');
    assert DropEach(2, quoted) == lines;
    Strings.JoinSplit(text, '\n');
  }

  /** The lines of the example text, with and without its surrounding newlines. */
  lemma ExampleLines()
    ensures QuotedText("\na\n\n\n", true) == "a"
    ensures Strings.Split("a", '\n') == ["a"]
    ensures Strings.Split("\na\n\n\n", '\n') == ["", "a", "", "", ""]
  {
    assert Strings.LeadingRun("\na\n\n\n", '\n') == 1;
    assert Strings.TrailingRun("a\n\n\n", '\n') == 1;
    var none := Strings.Split("", '\n');
    assert none == [""];
    assert "a"[1..] == "" && ["a"[0]] + none[0] == "a" && none[1..] == [];
    assert Strings.Split("\n", '\n') == ["", ""];
    assert "\n\n"[1..] == "\n";
    assert Strings.Split("\n\n", '\n') == ["", "", ""];
    assert "\n\n\n"[1..] == "\n\n";
    assert Strings.Split("\n\n\n", '\n') == ["", "", "", ""];
    assert "a\n\n\n"[1..] == "\n\n\n";
    assert Strings.Split("a\n\n\n", '\n') == ["a", "", "", ""];
    assert "\na\n\n\n"[1..] == "a\n\n\n";
  }

  /** With trimming, the surrounding empty lines disappear. */
  lemma BlockquoteTrimmedExample()
    ensures Blockquote("\na\n\n\n", true) == "> a"
  {
    ExampleLines();
    var quoted := PrefixEach("> ", ["a"]);
    assert quoted[0] == "> " + "a" == "> a";
  }

  /** Without trimming, a leading empty line becomes a bare "> ". */
  lemma BlockquoteUntrimmedExample()
    ensures Blockquote("\na", false) == "> \n> a"
  {
    var none := Strings.Split("", '\n');
    assert none == [""];
    assert "a"[1..] == "" && ["a"[0]] + none[0] == "a" && none[1..] == [];
    assert Strings.Split("a", '\n') == ["a"];
    assert "\na"[1..] == "a";
    var quoted := PrefixEach("> ", ["", "a"]);
    assert quoted[0] == "> " + "" == "> " && quoted[1] == "> " + "a" == "> a";
    assert quoted[1..] == ["> a"];
  }

  // ---------------------------------------------------------------- horizontalLine

  /** The rule length: the explicit length if set, else a positive wordwrap, else 40. */
  function HorizontalLineLength(length: Option<int>, wordwrap: Option<int>): int {
    if length.Some? then length.value
    else if wordwrap.Some? && wordwrap.value > 0 then wordwrap.value
    else 40
  }

  /** The rule itself: `"-".Repeat(length)`, which throws for a negative length. */
  function HorizontalLine(length: Option<int>, wordwrap: Option<int>): Outcome<string> {
    var n := HorizontalLineLength(length, wordwrap);
    if n < 0 then Failure("negative length") else Success(Strings.Repeated("-", n))
  }

  /**
   * The rule is exactly as many dashes as the chosen length; without an explicit
   * length it is never empty and never fails.
   */
  lemma HorizontalLineShape(length: Option<int>, wordwrap: Option<int>)
    ensures var n := HorizontalLineLength(length, wordwrap);
      && (length.None? ==> n > 0 && HorizontalLine(length, wordwrap).Success?)
      && (length.None? && wordwrap.Some? && wordwrap.value > 0 ==> n == wordwrap.value)
      && (length.None? && (wordwrap.None? || wordwrap.value <= 0) ==> n == 40)
      && (HorizontalLine(length, wordwrap).Success? ==>
            |HorizontalLine(length, wordwrap).value| == n
            && forall k :: 0 <= k < n ==> HorizontalLine(length, wordwrap).value[k] == '-')
  {
    var n := HorizontalLineLength(length, wordwrap);
    if n >= 0 {
      Strings.RepeatedLength("-", n);
      forall k | 0 <= k < n ensures Strings.Repeated("-", n)[k] == '-' {
        Strings.RepeatedAt("-", n, k);
      }
    }
  }
}
