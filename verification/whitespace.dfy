/**
 * `WhitespaceProcessor`: cuts text into words against a configured set of
 * white-space characters and feeds the words to an inline builder, either
 * collapsing all white space or (with preserved newlines) keeping each '\n'
 * as a line break of its own.
 */
module Whitespace {
  import opened InlineText

  // ---------------------------------------------------------------- the character set

  /** The characters of a string, as a set. */
  function CharSet(s: string): set<char> {
    set i | 0 <= i < |s| :: s[i]
  }

  /** `s.Replace(c.ToString(), "")`: every occurrence of `c` removed. */
  function Without(s: string, c: char): (r: string)
    ensures forall i :: 0 <= i < |r| ==> r[i] != c
  {
    if s == [] then []
    else (if s[0] == c then [] else [s[0]]) + Without(s[1..], c)
  }

  /** Removing `c` leaves every other character of the set. */
  lemma {:induction false} WithoutSet(s: string, c: char)
    ensures CharSet(Without(s, c)) == CharSet(s) - {c}
  {
    if s != [] {
      WithoutSet(s[1..], c);
      var head := if s[0] == c then [] else [s[0]];
      CharSetAppend(head, Without(s[1..], c));
      CharSetAppend([s[0]], s[1..]);
      assert [s[0]] + s[1..] == s;
    }
  }

  lemma CharSetAppend(a: string, b: string)
    ensures CharSet(a + b) == CharSet(a) + CharSet(b)
  {
    var ab := a + b;
    forall x | x in CharSet(ab)
      ensures x in CharSet(a) + CharSet(b)
    {
      var i :| 0 <= i < |ab| && ab[i] == x;
      if i >= |a| {
        assert b[i - |a|] == x;
      }
    }
    forall x | x in CharSet(a) + CharSet(b)
      ensures x in CharSet(ab)
    {
      if x in CharSet(a) {
        var i :| 0 <= i < |a| && a[i] == x;
        assert ab[i] == x;
      } else {
        var i :| 0 <= i < |b| && b[i] == x;
        assert ab[|a| + i] == x;
      }
    }
  }

  // ---------------------------------------------------------------- CharactersToCodes

  function HexDigit(d: nat): char
    requires d < 16
  {
    "0123456789abcdef"[d]
  }

  /** `n.ToString("x" + width)`: lower-case hexadecimal, zero-padded to at least `width` digits. */
  function Hex(n: nat, width: nat): string
    decreases n, width
  {
    if n < 16 && width <= 1 then [HexDigit(n)]
    else Hex(n / 16, if width == 0 then 0 else width - 1) + [HexDigit(n % 16)]
  }

  function DigitValue(c: char): int {
    if '0' <= c <= '9' then c as int - '0' as int else c as int - 'a' as int + 10
  }

  /** The number a string of hexadecimal digits denotes. */
  function HexValue(s: string): int {
    if s == [] then 0 else 16 * HexValue(s[..|s| - 1]) + DigitValue(s[|s| - 1])
  }

  function Pow16(w: nat): nat {
    if w == 0 then 1 else 16 * Pow16(w - 1)
  }

  lemma DigitRoundTrip(d: nat)
    requires d < 16
    ensures DigitValue(HexDigit(d)) == d
  {
  }

  lemma {:induction false} HexRoundTrip(n: nat, width: nat)
    ensures HexValue(Hex(n, width)) == n
    decreases n, width
  {
    if n < 16 && width <= 1 {
      DigitRoundTrip(n);
      assert [HexDigit(n)][..0] == [];
    } else {
      var front := Hex(n / 16, if width == 0 then 0 else width - 1);
      var last := HexDigit(n % 16);
      HexRoundTrip(n / 16, if width == 0 then 0 else width - 1);
      DigitRoundTrip(n % 16);
      assert (front + [last])[..|front|] == front;
      assert HexValue(front + [last]) == 16 * (n / 16) + n % 16;
    }
  }

  /** A number below 16^width takes exactly `width` digits. */
  lemma {:induction false} HexLength(n: nat, width: nat)
    requires width >= 1 && n < Pow16(width)
    ensures |Hex(n, width)| == width
    decreases width
  {
    if width > 1 {
      DivBelow(n, Pow16(width - 1));
      HexLength(n / 16, width - 1);
    }
  }

  lemma DivBelow(n: nat, p: nat)
    requires n < 16 * p
    ensures n / 16 < p
  {
  }

  /** One character as `\u` and four hexadecimal digits (more above U+FFFF). */
  function Code(c: char): string {
    "\\u" + Hex(c as int, 4)
  }

  /** The codes of every character, in order. */
  function Codes(s: string): string {
    if s == [] then [] else Code(s[0]) + Codes(s[1..])
  }

  /** The UTF-16 range: every character a .NET string can hold. */
  predicate Utf16(s: string) {
    forall i :: 0 <= i < |s| ==> s[i] as int < 0x1_0000
  }

  /** Six characters per input character. */
  lemma {:induction false} CodesLength(s: string)
    requires Utf16(s)
    ensures |Codes(s)| == 6 * |s|
  {
    if s != [] {
      HexLength(s[0] as int, 4);
      CodesLength(s[1..]);
    }
  }

  function CodePoints(s: string): seq<int> {
    if s == [] then [] else [s[0] as int] + CodePoints(s[1..])
  }

  /** Reads `\uXXXX` groups back into code points. */
  function DecodeCodes(t: string): seq<int>
    decreases |t|
  {
    if |t| < 6 then [] else [HexValue(t[2..6])] + DecodeCodes(t[6..])
  }

  /** The codes read back into the characters' code points. */
  lemma {:induction false} CodesRoundTrip(s: string)
    requires Utf16(s)
    ensures DecodeCodes(Codes(s)) == CodePoints(s)
  {
    if s != [] {
      var code, rest := Code(s[0]), Codes(s[1..]);
      HexLength(s[0] as int, 4);
      HexRoundTrip(s[0] as int, 4);
      CodesRoundTrip(s[1..]);
      var t := code + rest;
      assert t[2..6] == Hex(s[0] as int, 4);
      assert t[6..] == rest;
    }
  }

  /** `CharactersToCodes`: the code of each character appended in turn. */
  method CharactersToCodes(str: string) returns (result: string)
    ensures result == Codes(str)
  {
    result := "";
    var i := 0;
    while i < |str|
      invariant 0 <= i <= |str|
      invariant result + Codes(str[i..]) == Codes(str)
    {
      assert str[i..][1..] == str[i + 1..];
      Associative(result, Code(str[i]), Codes(str[i + 1..]));
      result := result + ("\\u" + Hex(str[i] as int, 4));
      i := i + 1;
    }
  }

  /** `CharactersToCodes(" \t")` is `\u0020\u0009`. */
  lemma CharactersToCodesExample()
    ensures Codes(" \t") == "\\u0020\\u0009"
  {
    HexExamples();
    assert " \t"[1..] == "\t" && "\t"[1..] == [];
  }

  lemma HexExamples()
    ensures Hex(32, 4) == "0020" && Hex(9, 4) == "0009"
  {
    assert Hex(0, 2) == "00" by {
      assert Hex(0, 2) == Hex(0, 1) + "0";
    }
    assert Hex(2, 3) == Hex(0, 2) + "2";
    assert Hex(0, 3) == Hex(0, 2) + "0";
  }

  // ---------------------------------------------------------------- tokens

  /** A character that belongs to a word: not white space, and not a preserved '\n'. */
  predicate IsWordChar(c: char, ws: set<char>, preserve: bool) {
    c !in ws && !(preserve && c == '\n')
  }

  /** The length of the run of word characters at the start of `s`. */
  function RunLength(s: string, ws: set<char>, preserve: bool): (k: nat)
    ensures k <= |s|
    ensures forall j :: 0 <= j < k ==> IsWordChar(s[j], ws, preserve)
    ensures k == |s| || !IsWordChar(s[k], ws, preserve)
  {
    if s == [] || !IsWordChar(s[0], ws, preserve) then 0 else 1 + RunLength(s[1..], ws, preserve)
  }

  /**
   * The matches of the tokenising regex, in order: maximal runs of word
   * characters and, with preserved newlines, each '\n' on its own.
   */
  function Tokens(s: string, ws: set<char>, preserve: bool): seq<string>
    decreases |s|
  {
    if s == [] then []
    else if preserve && s[0] == '\n' then ["\n"] + Tokens(s[1..], ws, preserve)
    else if !IsWordChar(s[0], ws, preserve) then Tokens(s[1..], ws, preserve)
    else
      var k := RunLength(s, ws, preserve);
      [s[..k]] + Tokens(s[k..], ws, preserve)
  }

  /** The word characters of `s`, in order. */
  function Kept(s: string, ws: set<char>, preserve: bool): string {
    if s == [] then []
    else (if IsWordChar(s[0], ws, preserve) then [s[0]] else []) + Kept(s[1..], ws, preserve)
  }

  /** The word tokens: the preserved '\n' tokens dropped. */
  function Words(tokens: seq<string>, preserve: bool): seq<string> {
    if tokens == [] then []
    else (if preserve && tokens[0] == "\n" then [] else [tokens[0]]) + Words(tokens[1..], preserve)
  }

  /** A text without any token: no word character, and no '\n' if newlines are preserved. */
  predicate Silent(s: string, ws: set<char>, preserve: bool) {
    forall j :: 0 <= j < |s| ==> !IsWordChar(s[j], ws, preserve) && !(preserve && s[j] == '\n')
  }

  /** Every token is a '\n' of its own (only with preserved newlines) or a non-empty run of word characters. */
  lemma {:induction false} TokensShape(s: string, ws: set<char>, preserve: bool)
    ensures forall t <- Tokens(s, ws, preserve) ::
      (preserve && t == "\n") || (|t| >= 1 && forall j :: 0 <= j < |t| ==> IsWordChar(t[j], ws, preserve))
    decreases |s|
  {
    if s != [] {
      if preserve && s[0] == '\n' {
        TokensShape(s[1..], ws, preserve);
      } else if !IsWordChar(s[0], ws, preserve) {
        TokensShape(s[1..], ws, preserve);
      } else {
        var k := RunLength(s, ws, preserve);
        TokensShape(s[k..], ws, preserve);
        assert forall j :: 0 <= j < k ==> s[..k][j] == s[j];
      }
    }
  }

  /** A run of word characters at the front is kept whole. */
  lemma {:induction false} KeptRun(s: string, ws: set<char>, preserve: bool, k: nat)
    requires k <= |s| && forall j :: 0 <= j < k ==> IsWordChar(s[j], ws, preserve)
    ensures Kept(s, ws, preserve) == s[..k] + Kept(s[k..], ws, preserve)
  {
    if k > 0 {
      KeptRun(s[1..], ws, preserve, k - 1);
      assert s[1..][k - 1..] == s[k..];
      assert [s[0]] + s[1..][..k - 1] == s[..k];
      Associative([s[0]], s[1..][..k - 1], Kept(s[k..], ws, preserve));
    }
  }

  /** The word tokens glue back into exactly the word characters of the text. */
  lemma {:induction false} TokensGlue(s: string, ws: set<char>, preserve: bool)
    ensures Glued(Words(Tokens(s, ws, preserve), preserve)) == Kept(s, ws, preserve)
    decreases |s|
  {
    if s != [] {
      if preserve && s[0] == '\n' {
        var rest := Tokens(s[1..], ws, preserve);
        TokensGlue(s[1..], ws, preserve);
        assert (["\n"] + rest)[1..] == rest;
        assert Words(["\n"] + rest, preserve) == [] + Words(rest, preserve);
        assert [] + Words(rest, preserve) == Words(rest, preserve);
        assert Kept(s, ws, preserve) == [] + Kept(s[1..], ws, preserve);
      } else if !IsWordChar(s[0], ws, preserve) {
        TokensGlue(s[1..], ws, preserve);
      } else {
        var k := RunLength(s, ws, preserve);
        var rest := Tokens(s[k..], ws, preserve);
        TokensGlue(s[k..], ws, preserve);
        KeptRun(s, ws, preserve, k);
        assert s[..k][0] == s[0];
        assert ([s[..k]] + rest)[1..] == rest;
        GluedCons(s[..k], Words(rest, preserve));
      }
    }
  }

  /** There is no token exactly when the text is silent. */
  lemma {:induction false} TokensEmpty(s: string, ws: set<char>, preserve: bool)
    ensures Tokens(s, ws, preserve) == [] <==> Silent(s, ws, preserve)
    decreases |s|
  {
    if s != [] && !(preserve && s[0] == '\n') && !IsWordChar(s[0], ws, preserve) {
      TokensEmpty(s[1..], ws, preserve);
      assert forall j :: 1 <= j < |s| ==> s[j] == s[1..][j - 1];
    }
  }

  // ---------------------------------------------------------------- the regex tests

  /** Every character of `s` is white space. */
  predicate Blank(s: string, ws: set<char>) {
    forall j :: 0 <= j < |s| ==> s[j] in ws
  }

  /** `^[ws]`. */
  predicate LeadingWhitespace(text: string, ws: set<char>) {
    |text| > 0 && text[0] in ws
  }

  /** `[ws]$`, where `$` also matches just before a final '\n'. */
  predicate TrailingWhitespace(text: string, ws: set<char>) {
    (|text| > 0 && text[|text| - 1] in ws)
    || (|text| > 1 && text[|text| - 1] == '\n' && text[|text| - 2] in ws)
  }

  /** `^[ws]*$`, where `$` also matches just before a final '\n'. */
  predicate AllWhitespaceOrEmpty(text: string, ws: set<char>) {
    Blank(text, ws) || (|text| > 0 && text[|text| - 1] == '\n' && Blank(text[..|text| - 1], ws))
  }

  /** `TestContainsWords`: "\n" alone counts as a word when '\n' is not white space. */
  predicate ContainsWords(text: string, ws: set<char>) {
    if '\n' !in ws && text == "\n" then true else !AllWhitespaceOrEmpty(text, ws)
  }

  /** When '\n' is white space, the text contains words exactly when it has a token. */
  lemma ContainsWordsTokens(text: string, ws: set<char>)
    requires '\n' in ws
    ensures ContainsWords(text, ws) <==> Tokens(text, ws, false) != []
  {
    TokensEmpty(text, ws, false);
    if |text| > 0 && text[|text| - 1] == '\n' && Blank(text[..|text| - 1], ws) {
      assert forall j :: 0 <= j < |text| - 1 ==> text[..|text| - 1][j] == text[j];
    }
  }

  /**
   * With newlines preserved, "\n" counts as a word but " \n" does not,
   * although both hold a '\n' token: `$` matches before the final '\n'.
   */
  lemma ContainsWordsNewline(ws: set<char>)
    requires '\n' !in ws && ' ' in ws
    ensures ContainsWords("\n", ws) && Tokens("\n", ws, true) == ["\n"]
    ensures !ContainsWords(" \n", ws) && Tokens(" \n", ws, true) == ["\n"]
  {
    assert " \n"[1..] == "\n" && "\n"[1..] == [];
    assert " \n"[..1] == " ";
  }

  // ---------------------------------------------------------------- CountNewlinesNoWords

  /** Some character is neither white space nor '\n'. */
  predicate HasWord(s: string, ws: set<char>) {
    s != [] && ((s[0] != '\n' && s[0] !in ws) || HasWord(s[1..], ws))
  }

  function NewlineCount(s: string): nat {
    if s == [] then 0 else (if s[0] == '\n' then 1 else 0) + NewlineCount(s[1..])
  }

  /** The number of newlines, or 0 as soon as the text holds a word character. */
  function NewlinesNoWords(s: string, ws: set<char>): nat {
    if HasWord(s, ws) then 0 else NewlineCount(s)
  }

  /**
   * With newlines preserved, a text without words is cut into exactly its
   * newlines, and a text with words has a word token.
   */
  lemma {:induction false} NewlineTokens(s: string, ws: set<char>)
    ensures !HasWord(s, ws) ==> |Tokens(s, ws, true)| == NewlineCount(s) && forall t <- Tokens(s, ws, true) :: t == "\n"
    ensures HasWord(s, ws) ==> exists t <- Tokens(s, ws, true) :: t != "\n"
    decreases |s|
  {
    if s != [] {
      if s[0] == '\n' {
        NewlineTokens(s[1..], ws);
        var rest := Tokens(s[1..], ws, true);
        if HasWord(s, ws) {
          var t :| t in rest && t != "\n";
          assert t in ["\n"] + rest;
        }
      } else if s[0] in ws {
        NewlineTokens(s[1..], ws);
      } else {
        var k := RunLength(s, ws, true);
        assert s[..k] in Tokens(s, ws, true);
        assert s[..k][0] != '\n';
      }
    }
  }

  // ---------------------------------------------------------------- feeding a builder

  /** The inline builder's state that words change: its layout and its word-break opportunity. */
  datatype Inline = Inline(layout: Layout, breakOpportunity: bool)

  /** The settings a feed runs under: the builder's wrapping, `noWrap`, newline handling and the word transform. */
  datatype Feed = Feed(width: int, wrap: string, force: bool, noWrap: bool, preserve: bool, transform: string -> string)

  /** One token: a preserved '\n' starts a new line; a word is pushed, or glued onto the previous word. */
  function AddToken(st: Inline, token: string, push: bool, f: Feed): Inline
    requires f.width >= 1
  {
    if f.preserve && token == "\n" then Inline(NewLine(st.layout, 1, f.width), st.breakOpportunity)
    else if push then Inline(Pushed(st.layout, f.transform(token), f.noWrap, f.width, f.wrap, f.force), st.breakOpportunity)
    else
      var (layout, flag) := Concatenated(st.layout, st.breakOpportunity, f.transform(token), f.noWrap, f.width, f.wrap, f.force);
      Inline(layout, flag)
  }

  /** Every token in turn; only the first may be glued, each later word is pushed. */
  function AddTokens(st: Inline, tokens: seq<string>, push: bool, f: Feed): Inline
    requires f.width >= 1
    decreases |tokens|
  {
    if tokens == [] then st else AddTokens(AddToken(st, tokens[0], push, f), tokens[1..], true, f)
  }

  function Mapped(words: seq<string>, transform: string -> string): (r: seq<string>)
    ensures |r| == |words|
  {
    if words == [] then [] else [transform(words[0])] + Mapped(words[1..], transform)
  }

  /** The builder gains exactly the characters of the transformed words, in order. */
  lemma {:induction false} AddTokensChars(st: Inline, tokens: seq<string>, push: bool, f: Feed)
    requires f.width >= 1
    ensures Chars(AddTokens(st, tokens, push, f).layout) == Chars(st.layout) + Glued(Mapped(Words(tokens, f.preserve), f.transform))
    decreases |tokens|
  {
    if tokens == [] {
      assert Chars(st.layout) + [] == Chars(st.layout);
    } else {
      var next := AddToken(st, tokens[0], push, f);
      var word := f.transform(tokens[0]);
      AddTokensChars(next, tokens[1..], true, f);
      var later := Glued(Mapped(Words(tokens[1..], f.preserve), f.transform));
      if f.preserve && tokens[0] == "\n" {
        CharsNewLine(st.layout, 1, f.width);
        assert Words(tokens, f.preserve) == [] + Words(tokens[1..], f.preserve);
        assert [] + Words(tokens[1..], f.preserve) == Words(tokens[1..], f.preserve);
      } else {
        if push {
          CharsPushed(st.layout, word, f.noWrap, f.width, f.wrap, f.force);
        } else {
          CharsConcatenated(st.layout, st.breakOpportunity, word, f.noWrap, f.width, f.wrap, f.force);
        }
        assert Words(tokens, f.preserve) == [tokens[0]] + Words(tokens[1..], f.preserve);
        assert ([tokens[0]] + Words(tokens[1..], f.preserve))[1..] == Words(tokens[1..], f.preserve);
        GluedCons(word, Mapped(Words(tokens[1..], f.preserve), f.transform));
        Associative(Chars(st.layout), word, later);
      }
    }
  }

  /** Feeding keeps the budget consistent with the line in progress. */
  lemma {:induction false} AddTokensBudget(st: Inline, tokens: seq<string>, push: bool, f: Feed)
    requires f.width >= 1 && Budgeted(st.layout, f.width)
    ensures Budgeted(AddTokens(st, tokens, push, f).layout, f.width)
    decreases |tokens|
  {
    if tokens != [] {
      var word := f.transform(tokens[0]);
      if f.preserve && tokens[0] == "\n" {
      } else if push {
        BudgetPushed(st.layout, word, f.noWrap, f.width, f.wrap, f.force);
      } else {
        BudgetConcatenated(st.layout, st.breakOpportunity, word, f.noWrap, f.width, f.wrap, f.force);
      }
      AddTokensBudget(AddToken(st, tokens[0], push, f), tokens[1..], true, f);
    }
  }

  /** No transform. */
  function Identity(w: string): string {
    w
  }

  lemma {:induction false} MappedIdentity(words: seq<string>)
    ensures Mapped(words, Identity) == words
  {
    if words != [] {
      MappedIdentity(words[1..]);
    }
  }

  /** Without a transform, the builder gains exactly the word characters of the text. */
  lemma ShrinkWrapChars(st: Inline, text: string, ws: set<char>, push: bool, width: int, wrap: string, force: bool, noWrap: bool, preserve: bool)
    requires width >= 1
    ensures var f := Feed(width, wrap, force, noWrap, preserve, Identity);
      Chars(AddTokens(st, Tokens(text, ws, preserve), push, f).layout) == Chars(st.layout) + Kept(text, ws, preserve)
  {
    var f := Feed(width, wrap, force, noWrap, preserve, Identity);
    AddTokensChars(st, Tokens(text, ws, preserve), push, f);
    MappedIdentity(Words(Tokens(text, ws, preserve), preserve));
    TokensGlue(text, ws, preserve);
  }

  /** One round of a feeding loop. */
  lemma AddTokensStep(st: Inline, tokens: seq<string>, i: nat, push: bool, f: Feed)
    requires f.width >= 1 && i < |tokens|
    ensures AddTokens(st, tokens[i..], push, f) == AddTokens(AddToken(st, tokens[i], push, f), tokens[i + 1..], true, f)
  {
    assert tokens[i..][0] == tokens[i] && tokens[i..][1..] == tokens[i + 1..];
  }

  /** `AddLiteral` splits at each '\n' only, so its words glue back into the text without its newlines. */
  lemma LiteralGlue(text: string)
    ensures Glued(Words(Tokens(text, {}, true), true)) == Without(text, '\n')
    ensures text != [] ==> Tokens(text, {}, true) != []
  {
    TokensGlue(text, {}, true);
    KeptLiteral(text);
    TokensEmpty(text, {}, true);
    if text != [] {
      assert !Silent(text, {}, true);
    }
  }

  lemma {:induction false} KeptLiteral(s: string)
    ensures Kept(s, {}, true) == Without(s, '\n')
  {
    if s != [] {
      KeptLiteral(s[1..]);
    }
  }

  // ---------------------------------------------------------------- the processor

  /** The processor: the white-space set (without '\n' when newlines are preserved) and the mode. */
  class WhitespaceProcessor {
    const whitespaceChars: string
    const preserveNewlines: bool

    /** With newlines preserved, '\n' is taken out of the configured white space. */
    constructor (whitespaceCharacters: string, preserveNewlines: bool)
      ensures this.preserveNewlines == preserveNewlines
      ensures whitespaceChars == if preserveNewlines then Without(whitespaceCharacters, '\n') else whitespaceCharacters
      ensures Blanks() == if preserveNewlines then CharSet(whitespaceCharacters) - {'\n'} else CharSet(whitespaceCharacters)
    {
      this.preserveNewlines := preserveNewlines;
      whitespaceChars := if preserveNewlines then Without(whitespaceCharacters, '\n') else whitespaceCharacters;
      WithoutSet(whitespaceCharacters, '\n');
    }

    /** The white-space characters as a set. */
    function Blanks(): set<char> {
      CharSet(whitespaceChars)
    }

    /** The settings a feed into `builder` runs under. */
    function FeedOf(builder: InlineTextBuilder, noWrap: bool, preserve: bool, transform: string -> string): Feed {
      Feed(builder.maxLineLength, builder.wrapCharacters, builder.forceWrapOnLimit, noWrap, preserve, transform)
    }

    /** `TestContainsWords`. */
    predicate TestContainsWords(text: string) {
      ContainsWords(text, Blanks())
    }

    /** `CountNewlinesNoWords`: count the '\n' matches, returning 0 at the first word character. */
    method CountNewlinesNoWords(text: string) returns (counter: nat)
      ensures counter == NewlinesNoWords(text, Blanks())
    {
      counter := 0;
      var i := 0;
      while i < |text|
        invariant 0 <= i <= |text|
        invariant counter + NewlineCount(text[i..]) == NewlineCount(text)
        invariant HasWord(text, Blanks()) == HasWord(text[i..], Blanks())
      {
        assert text[i..][1..] == text[i + 1..];
        if text[i] == '\n' {
          counter := counter + 1;
        } else if text[i] !in Blanks() {
          return 0;
        }
        i := i + 1;
      }
    }

    /** The body of the feeding loops: a preserved '\n' starts a new line, a word is pushed or glued on. */
    method AddMatch(token: string, builder: InlineTextBuilder, push: bool, preserve: bool, transform: string -> string, noWrap: bool)
      requires builder.Valid() && builder.maxLineLength >= 1
      modifies builder
      ensures builder.Valid()
      ensures Inline(builder.Model(), builder.wordBreakOpportunity)
        == AddToken(Inline(old(builder.Model()), old(builder.wordBreakOpportunity)), token, push, FeedOf(builder, noWrap, preserve, transform))
      ensures builder.stashedSpace == old(builder.stashedSpace)
    {
      if preserve && token == "\n" {
        builder.StartNewLine(1);
      } else if push {
        builder.PushWord(transform(token), noWrap);
      } else {
        builder.ConcatWord(transform(token), noWrap);
      }
    }

    /**
     * `ShrinkWrapAdd`, in both modes: every token is added in turn, the first
     * word pushed if a space was stashed or the text starts with white space
     * and glued onto the previous word otherwise; then a space is stashed if
     * one was and no token was found, or if the text ends in white space.
     * Empty text changes nothing.
     */
    method ShrinkWrapAdd(text: string, builder: InlineTextBuilder, transform: string -> string, noWrap: bool)
      requires builder.Valid() && builder.maxLineLength >= 1
      modifies builder
      ensures builder.Valid()
      ensures text == [] ==>
        (builder.Model() == old(builder.Model()) && builder.wordBreakOpportunity == old(builder.wordBreakOpportunity)
         && builder.stashedSpace == old(builder.stashedSpace))
      ensures text != [] ==>
        (Inline(builder.Model(), builder.wordBreakOpportunity)
         == AddTokens(Inline(old(builder.Model()), old(builder.wordBreakOpportunity)), Tokens(text, Blanks(), preserveNewlines),
                      old(builder.stashedSpace) || LeadingWhitespace(text, Blanks()), FeedOf(builder, noWrap, preserveNewlines, transform)))
      ensures text != [] ==>
        (builder.stashedSpace
         == ((old(builder.stashedSpace) && Tokens(text, Blanks(), preserveNewlines) == []) || TrailingWhitespace(text, Blanks())))
    {
      if text == [] {
        return;
      }
      var previouslyStashedSpace := builder.stashedSpace;
      var m := Tokens(text, Blanks(), preserveNewlines);
      var anyMatch := |m| > 0;
      FeedTokens(m, builder, previouslyStashedSpace || LeadingWhitespace(text, Blanks()), preserveNewlines, transform, noWrap);
      builder.stashedSpace := (previouslyStashedSpace && !anyMatch) || TrailingWhitespace(text, Blanks());
    }

    /**
     * The loop both feeding modes share: every token is added in turn, the
     * first pushed if `pushFirst` and glued onto the previous word otherwise,
     * every later one pushed.
     */
    method FeedTokens(m: seq<string>, builder: InlineTextBuilder, pushFirst: bool, preserve: bool, transform: string -> string, noWrap: bool)
      requires builder.Valid() && builder.maxLineLength >= 1
      modifies builder
      ensures builder.Valid()
      ensures Inline(builder.Model(), builder.wordBreakOpportunity)
        == AddTokens(Inline(old(builder.Model()), old(builder.wordBreakOpportunity)), m, pushFirst, FeedOf(builder, noWrap, preserve, transform))
      ensures builder.stashedSpace == old(builder.stashedSpace)
    {
      ghost var f := FeedOf(builder, noWrap, preserve, transform);
      ghost var start := Inline(builder.Model(), builder.wordBreakOpportunity);
      var i := 0;
      while i < |m|
        invariant 0 <= i <= |m|
        invariant builder.Valid()
        invariant builder.stashedSpace == old(builder.stashedSpace)
        invariant AddTokens(Inline(builder.Model(), builder.wordBreakOpportunity), m[i..], i > 0 || pushFirst, f)
          == AddTokens(start, m, pushFirst, f)
      {
        AddTokensStep(Inline(builder.Model(), builder.wordBreakOpportunity), m, i, i > 0 || pushFirst, f);
        AddMatch(m[i], builder, i > 0 || pushFirst, preserve, transform, noWrap);
        i := i + 1;
      }
    }

    /**
     * `AddLiteral`: every '\n' starts a new line and every run between
     * newlines is one untrimmed word, the first glued onto the previous word
     * unless a space was stashed. Non-empty text clears the stashed space.
     */
    method AddLiteral(text: string, builder: InlineTextBuilder, noWrap: bool)
      requires builder.Valid() && builder.maxLineLength >= 1
      modifies builder
      ensures builder.Valid()
      ensures text == [] ==>
        (builder.Model() == old(builder.Model()) && builder.wordBreakOpportunity == old(builder.wordBreakOpportunity)
         && builder.stashedSpace == old(builder.stashedSpace))
      ensures text != [] ==>
        (Inline(builder.Model(), builder.wordBreakOpportunity)
         == AddTokens(Inline(old(builder.Model()), old(builder.wordBreakOpportunity)), Tokens(text, {}, true),
                      old(builder.stashedSpace), FeedOf(builder, noWrap, true, Identity)))
      ensures text != [] ==> !builder.stashedSpace
    {
      if text == [] {
        return;
      }
      var previouslyStashedSpace := builder.stashedSpace;
      var m := Tokens(text, {}, true);
      var anyMatch := |m| > 0;
      LiteralGlue(text);
      FeedTokens(m, builder, previouslyStashedSpace, true, Identity, noWrap);
      builder.stashedSpace := previouslyStashedSpace && !anyMatch;
    }
  }
}
