/**
 * `BlockTextBuilder`: the open/close protocol over a stack of scopes. Inline
 * text goes into the current scope's inline builder; closing a scope folds
 * its text into the scope below it, separated by the larger of the two
 * line-break counts that meet there.
 */
module BlockText {
  import opened Wrappers
  import Strings
  import opened InlineText
  import opened Whitespace
  import opened StackItems
  import TablePrinter
  import TextFormatters

  /** How a protocol call ends: normally, or with the exception the source throws. */
  datatype Status = Done | Thrown(message: string)

  // ---------------------------------------------------------------- the merge rule

  /** `string.IsNullOrWhiteSpace`. */
  predicate NullOrWhiteSpace(s: string) {
    forall i :: 0 <= i < |s| ==> Strings.IsWhiteSpace(s[i])
  }

  /** The text and leading line breaks of a scope after a child's text is folded into it. */
  datatype Merged = Merged(rawText: string, leadingLineBreaks: int)

  /**
   * `AddText`: the child's text follows the parent's text after the larger
   * of the parent's stashed breaks and the child's leading breaks; a blank
   * parent is replaced by the child's text and takes that count as its own
   * leading breaks instead.
   */
  function Merge(parentText: string, parentStash: int, parentLeading: int, text: string, leadingLineBreaks: int): Merged
    requires leadingLineBreaks >= 0
  {
    var lineBreaks := if parentStash > leadingLineBreaks then parentStash else leadingLineBreaks;
    if !NullOrWhiteSpace(parentText) then Merged(parentText + Strings.Repeated("\n", lineBreaks) + text, parentLeading)
    else Merged(text, lineBreaks)
  }

  /** Line breaks are white space. */
  lemma NewlinesBlank(n: nat)
    ensures NullOrWhiteSpace(Strings.Repeated("\n", n))
  {
    Strings.RepeatedLength("\n", n);
    forall i | 0 <= i < n
      ensures Strings.Repeated("\n", n)[i] == '\n'
    {
      Strings.RepeatedAt("\n", n, i);
    }
  }

  lemma {:induction false} VisibleWhiteSpace(s: string)
    requires NullOrWhiteSpace(s)
    ensures Strings.Visible(s) == []
  {
    Strings.VisibleBlank(s);
  }

  lemma VisibleGap(before: string, n: nat, after: string)
    ensures Strings.Visible(before + Strings.Repeated("\n", n) + after) == Strings.Visible(before) + Strings.Visible(after)
  {
    var gap := Strings.Repeated("\n", n);
    NewlinesBlank(n);
    VisibleWhiteSpace(gap);
    Strings.VisibleAppend(before, gap);
    Strings.VisibleAppend(before + gap, after);
    assert Strings.Visible(before) + [] == Strings.Visible(before);
  }

  /** Merging loses no visible character and adds none: the parent's come first, then the child's. */
  lemma MergeVisible(parentText: string, parentStash: int, parentLeading: int, text: string, leadingLineBreaks: int)
    requires leadingLineBreaks >= 0
    ensures Strings.Visible(Merge(parentText, parentStash, parentLeading, text, leadingLineBreaks).rawText)
      == Strings.Visible(parentText) + Strings.Visible(text)
  {
    var lineBreaks := if parentStash > leadingLineBreaks then parentStash else leadingLineBreaks;
    if !NullOrWhiteSpace(parentText) {
      VisibleGap(parentText, lineBreaks, text);
    } else {
      VisibleWhiteSpace(parentText);
    }
  }

  /**
   * Two children folded one after the other into a non-blank parent: each
   * seam gets the larger of the two counts meeting there, never their sum.
   */
  lemma MergeSiblings(parentText: string, stash: int, parentLeading: int,
                      first: string, firstLeading: int, firstTrailing: int,
                      second: string, secondLeading: int)
    requires !NullOrWhiteSpace(parentText) && firstLeading >= 0 && secondLeading >= 0
    ensures var m1 := Merge(parentText, stash, parentLeading, first, firstLeading);
      var m2 := Merge(m1.rawText, firstTrailing, m1.leadingLineBreaks, second, secondLeading);
      m2.rawText == parentText + Strings.Repeated("\n", if stash > firstLeading then stash else firstLeading) + first
                    + Strings.Repeated("\n", if firstTrailing > secondLeading then firstTrailing else secondLeading) + second
      && m2.leadingLineBreaks == parentLeading
  {
    var m1 := Merge(parentText, stash, parentLeading, first, firstLeading);
    var i :| 0 <= i < |parentText| && !Strings.IsWhiteSpace(parentText[i]);
    assert m1.rawText[i] == parentText[i];
  }

  // ---------------------------------------------------------------- list items

  /** `Replace("\n", "\n" + pad)`: every line after the first gets `pad` in front. */
  function Indented(s: string, pad: string): string
    decreases |s|
  {
    if s == [] then [] else (if s[0] == '\n' then ['\n'] + pad else [s[0]]) + Indented(s[1..], pad)
  }

  /** The lines of an indented text are the original lines, all but the first behind `pad`. */
  lemma {:induction false} IndentedLines(s: string, pad: string)
    requires '\n' !in pad
    ensures Strings.Split(Indented(s, pad), '\n')
      == [Strings.Split(s, '\n')[0]] + TextFormatters.PrefixEach(pad, Strings.Split(s, '\n')[1..])
    decreases |s|
  {
    if s != [] {
      var rest := Indented(s[1..], pad);
      var lines := Strings.Split(s[1..], '\n');
      IndentedLines(s[1..], pad);
      if s[0] == '\n' {
        assert Indented(s, pad) == ['\n'] + (pad + rest);
        Strings.SplitField(pad, rest, '\n');
        assert Strings.Split(pad + rest, '\n') == TextFormatters.PrefixEach(pad, lines);
        assert Strings.Split(s, '\n') == [[]] + lines;
      } else {
        assert Indented(s, pad) == [s[0]] + rest;
        assert (Indented(s, pad))[1..] == rest;
        assert Strings.Split(s, '\n')[1..] == lines[1..];
      }
    }
  }

  /** The width list item prefixes are padded to: the longer of the prefix and the list's maximum. */
  function PrefixWidth(prefix: string, maxPrefixLength: int): nat {
    if |prefix| > maxPrefixLength then |prefix| else maxPrefixLength
  }

  /** The prefix padded on the left for "right" alignment, on the right otherwise. */
  function PaddedPrefix(prefix: string, maxPrefixLength: int, prefixAlign: string): string {
    if prefixAlign == "right" then Strings.PadLeft(prefix, PrefixWidth(prefix, maxPrefixLength))
    else Strings.PadRight(prefix, PrefixWidth(prefix, maxPrefixLength))
  }

  /** What `closeListItem` folds into the list: the padded prefix, then the item text with a hanging indent. */
  function ListItemText(prefix: string, maxPrefixLength: int, prefixAlign: string, text: string): string {
    PaddedPrefix(prefix, maxPrefixLength, prefixAlign) + Indented(text, Strings.Spaces(PrefixWidth(prefix, maxPrefixLength)))
  }

  /**
   * The first line of a list item is its padded prefix followed by the first
   * line of its text; every later line is indented by the prefix width.
   */
  lemma ListItemLines(prefix: string, maxPrefixLength: int, prefixAlign: string, text: string)
    requires '\n' !in prefix
    ensures var lines := Strings.Split(text, '\n');
      var w := PrefixWidth(prefix, maxPrefixLength);
      && |PaddedPrefix(prefix, maxPrefixLength, prefixAlign)| == w
      && Strings.Split(ListItemText(prefix, maxPrefixLength, prefixAlign, text), '\n')
         == [PaddedPrefix(prefix, maxPrefixLength, prefixAlign) + lines[0]] + TextFormatters.PrefixEach(Strings.Spaces(w), lines[1..])
  {
    var w := PrefixWidth(prefix, maxPrefixLength);
    var padded := PaddedPrefix(prefix, maxPrefixLength, prefixAlign);
    var pad := Strings.Spaces(w);
    assert '\n' !in pad;
    assert '\n' !in padded by {
      if prefixAlign == "right" {
        assert padded == Strings.Spaces(w - |prefix|) + prefix || padded == prefix;
      } else {
        assert padded == prefix + Strings.Spaces(w - |prefix|) || padded == prefix;
      }
    }
    IndentedLines(text, pad);
    Strings.SplitField(padded, Indented(text, pad), '\n');
  }

  // ---------------------------------------------------------------- the scopes' text

  /** `GetText` of a text item: its raw text, then what its inline builder renders unless that is empty. */
  function Text(item: StackItem): string
    requires item.builder != null
    reads item, item.builder
  {
    Shown(State(item))
  }

  /** The emptiness shortcut of `GetText` changes nothing: an empty builder renders nothing. */
  lemma TextRendered(item: StackItem)
    requires item.builder != null
    ensures Text(item) == item.rawText + Render(item.builder.Model())
  {
    RenderEmpty(item.builder.Model());
    if item.builder.IsEmpty() {
      assert item.rawText + [] == item.rawText;
    }
  }

  /** The objects a call may change in a scope: the item and its inline builder. */
  function Frame(item: StackItem?): set<object> {
    if item == null then {} else {item} + (if item.builder == null then {} else {item.builder})
  }

  /**
   * What the protocol keeps true of every scope on the stack: text items and
   * only they own a valid builder of positive width, line-break counts are not
   * negative, and a list item sits on a list.
   */
  ghost predicate WellFormed(item: StackItem)
    reads item, item.builder
  {
    && (item.IsText() <==> item.builder != null)
    && (item.builder != null ==> item.builder.Valid() && item.builder.maxLineLength >= 1)
    && item.stashedLineBreaks >= 0 && item.leadingLineBreaks >= 0
    && (item.kind.List? ==> item.kind.interRowLineBreaks >= 0)
    && (item.kind.ListItem? ==> item.next != null && item.next.kind.List?)
  }

  /** A word transform that may be absent, applied when present. */
  function ApplyOptional(transform: Option<string -> string>, s: string): string {
    if transform.Some? then transform.value(s) else s
  }

  /** `encodeCharacters` after `wt`. */
  function Then(wt: string -> string, ce: string -> string): string -> string {
    s => ce(wt(s))
  }

  /** The chain of transforms as one function. */
  function Composed(transforms: seq<string -> string>): string -> string {
    s => Compose(transforms, s)
  }

  /** Stashed line breaks, when there are any, become new lines before inline text goes in. */
  function Flushed(layout: Layout, stashedLineBreaks: int, width: int): Layout {
    if stashedLineBreaks > 0 then NewLine(layout, stashedLineBreaks, width) else layout
  }

  /** A text scope's state as a value: its raw text, its stashed breaks and its inline builder's state. */
  datatype Scope = Scope(rawText: string, stashedLineBreaks: int, layout: Layout, breakOpportunity: bool, stashedSpace: bool)

  function State(item: StackItem): Scope
    requires item.builder != null
    reads item, item.builder
  {
    Scope(item.rawText, item.stashedLineBreaks, item.builder.Model(), item.builder.wordBreakOpportunity, item.builder.stashedSpace)
  }

  /** What inline calls leave alone in a scope: its flags, its leading breaks, its rows and cells. */
  twostate predicate Settled(item: StackItem)
    reads item
  {
    && item.isPre == old(item.isPre) && item.isNoWrap == old(item.isNoWrap)
    && item.leadingLineBreaks == old(item.leadingLineBreaks)
    && item.rows == old(item.rows) && item.cells == old(item.cells)
  }

  /** The text of a scope held as a value, as `GetText` renders it. */
  function Shown(sc: Scope): string {
    if sc.layout.lines == [] && sc.layout.words == [] then sc.rawText else sc.rawText + Render(sc.layout)
  }

  /** A scope's flags, leading breaks, rows and cells as a value. */
  datatype Flags = Flags(isPre: bool, isNoWrap: bool, leadingLineBreaks: int, rows: seq<seq<TablePrinter.Cell>>, cells: seq<TablePrinter.Cell>)

  function FlagsOf(item: StackItem): Flags
    reads item
  {
    Flags(item.isPre, item.isNoWrap, item.leadingLineBreaks, item.rows, item.cells)
  }

  /**
   * `AddText` done on a scope that was `before` with `flags`: its text and
   * leading breaks are merged with `text`, `trailingLineBreaks` is stashed
   * and the inline builder is emptied; nothing else changes.
   */
  predicate Folded(item: StackItem, before: Scope, flags: Flags, text: string, leadingLineBreaks: int, trailingLineBreaks: int)
    requires item.builder != null && leadingLineBreaks >= 0
    reads item, item.builder
  {
    && Merged(item.rawText, item.leadingLineBreaks)
       == Merge(Shown(before), before.stashedLineBreaks, flags.leadingLineBreaks, text, leadingLineBreaks)
    && item.stashedLineBreaks == trailingLineBreaks
    && item.builder.lines == [] && item.builder.nextLineWords == [] && item.builder.nextLineAvailableChars == item.builder.maxLineLength
    && item.builder.wordBreakOpportunity == before.breakOpportunity
    && item.builder.stashedSpace == before.stashedSpace
    && item.isPre == flags.isPre && item.isNoWrap == flags.isNoWrap
    && item.rows == flags.rows && item.cells == flags.cells
  }

  function Max(a: int, b: int): int {
    if a > b then a else b
  }

  /** Text `addInline` drops: empty text, or text without words while line breaks are stashed. */
  predicate Dropped(sc: Scope, str: string, ws: set<char>) {
    str == [] || (sc.stashedLineBreaks > 0 && !ContainsWords(str, ws))
  }

  /**
   * `addInline` on a text scope: raw text in preformatted scopes; otherwise
   * dropped text changes nothing, a run of blank lines in newline-preserving
   * mode starts that many lines (stashed breaks kept), and any other text is
   * fed in by `Fed`.
   */
  function Inlined(sc: Scope, str: string, isPre: bool, ws: set<char>, f: Feed): Scope
    requires f.width >= 1
  {
    if isPre then sc.(rawText := sc.rawText + str)
    else if Dropped(sc, str, ws) then sc
    else if f.preserve && NewlinesNoWords(str, ws) > 0 then sc.(layout := NewLine(sc.layout, NewlinesNoWords(str, ws), f.width))
    else Fed(sc, str, ws, f)
  }

  /**
   * The stashed breaks become new lines, the text's tokens go in as
   * `ShrinkWrapAdd` adds them, and the stash is cleared.
   */
  function Fed(sc: Scope, str: string, ws: set<char>, f: Feed): Scope
    requires f.width >= 1
  {
    var tokens := Tokens(str, ws, f.preserve);
    var st := AddTokens(Inline(Flushed(sc.layout, sc.stashedLineBreaks, f.width), sc.breakOpportunity),
                        tokens, sc.stashedSpace || LeadingWhitespace(str, ws), f);
    Scope(sc.rawText, 0, st.layout, st.breakOpportunity, (sc.stashedSpace && tokens == []) || TrailingWhitespace(str, ws))
  }

  /**
   * `addLiteral` on a text scope: empty text changes nothing; raw text in
   * preformatted scopes; otherwise the stashed breaks become new lines, the
   * text goes in untouched, every '\n' starting a line, and the stash and
   * the stashed space are cleared.
   */
  function Literal(sc: Scope, str: string, isPre: bool, f: Feed): Scope
    requires f.width >= 1
  {
    if str == [] then sc
    else if isPre then sc.(rawText := sc.rawText + str)
    else
      var st := AddTokens(Inline(Flushed(sc.layout, sc.stashedLineBreaks, f.width), sc.breakOpportunity),
                          Tokens(str, {}, true), sc.stashedSpace, f);
      Scope(sc.rawText, 0, st.layout, st.breakOpportunity, false)
  }

  /** Preserved '\n' tokens are no words. */
  lemma {:induction false} WordsNewlines(tokens: seq<string>)
    requires forall t <- tokens :: t == "\n"
    ensures Words(tokens, true) == []
    decreases |tokens|
  {
    if tokens != [] {
      assert tokens[0] in tokens;
      assert forall t <- tokens[1..] :: t in tokens;
      WordsNewlines(tokens[1..]);
    }
  }

  /**
   * Inline text is never lost or invented: preformatted, it is appended to
   * the raw text; dropped, nothing changes; otherwise the inline builder
   * gains exactly the characters of the text's words, transformed, in order.
   */
  lemma InlinedChars(sc: Scope, str: string, isPre: bool, ws: set<char>, f: Feed)
    requires f.width >= 1
    ensures var after := Inlined(sc, str, isPre, ws, f);
      && (isPre ==> after.rawText == sc.rawText + str && after.layout == sc.layout)
      && (!isPre && Dropped(sc, str, ws) ==> after == sc)
      && (!isPre && !Dropped(sc, str, ws) ==>
            && after.rawText == sc.rawText
            && Chars(after.layout) == Chars(sc.layout) + Glued(Mapped(Words(Tokens(str, ws, f.preserve), f.preserve), f.transform)))
  {
    if !isPre && !Dropped(sc, str, ws) {
      var tokens := Tokens(str, ws, f.preserve);
      if f.preserve && NewlinesNoWords(str, ws) > 0 {
        NewlineTokens(str, ws);
        WordsNewlines(tokens);
        CharsNewLine(sc.layout, NewlinesNoWords(str, ws), f.width);
        assert Chars(sc.layout) + [] == Chars(sc.layout);
      } else {
        var start := Flushed(sc.layout, sc.stashedLineBreaks, f.width);
        CharsNewLine(sc.layout, sc.stashedLineBreaks, f.width);
        assert Chars(start) == Chars(sc.layout);
        AddTokensChars(Inline(start, sc.breakOpportunity), tokens, sc.stashedSpace || LeadingWhitespace(str, ws), f);
      }
    }
  }

  /**
   * A literal is never lost either: outside preformatted text the inline
   * builder gains exactly its characters without its newlines, which start
   * new lines instead.
   */
  lemma LiteralChars(sc: Scope, str: string, isPre: bool, width: int, wrap: string, force: bool, noWrap: bool)
    requires width >= 1
    ensures var after := Literal(sc, str, isPre, Feed(width, wrap, force, noWrap, true, Identity));
      && (isPre ==> after.rawText == sc.rawText + str && after.layout == sc.layout)
      && (!isPre ==> after.rawText == sc.rawText && Chars(after.layout) == Chars(sc.layout) + Without(str, '\n'))
  {
    var f := Feed(width, wrap, force, noWrap, true, Identity);
    if str == [] {
      assert sc.rawText + str == sc.rawText;
      assert Chars(sc.layout) + Without(str, '\n') == Chars(sc.layout);
    } else if !isPre {
      var start := Flushed(sc.layout, sc.stashedLineBreaks, width);
      CharsNewLine(sc.layout, sc.stashedLineBreaks, width);
      var tokens := Tokens(str, {}, true);
      AddTokensChars(Inline(start, sc.breakOpportunity), tokens, sc.stashedSpace, f);
      MappedIdentity(Words(tokens, true));
      LiteralGlue(str);
    }
  }

  // ---------------------------------------------------------------- the builder

  class BlockTextBuilder {
    const options: Options
    const whitespaceProcessor: WhitespaceProcessor
    var stackItem: StackItem?
    var wordTransformer: TransformerStackItem?

    /** The open scopes, innermost first. */
    ghost function Stack(): seq<StackItem>
      reads this
    {
      if stackItem == null then [] else [stackItem] + stackItem.below
    }

    ghost function Items(): set<object>
      reads this
    {
      set x <- Stack()
    }

    ghost function Builders(): set<object>
      reads this
    {
      set x <- Stack() | x.builder != null :: x.builder
    }

    ghost predicate Valid()
      reads this, Items(), Builders()
    {
      && (stackItem != null ==> ChainLinked(stackItem))
      && (forall k :: 0 <= k < |Stack()| ==> WellFormed(Stack()[k]))
      && (stackItem != null ==> WellFormed(stackItem) && (stackItem.next != null ==> WellFormed(stackItem.next)))
      && (wordTransformer != null ==> TransformChain(wordTransformer))
      && whitespaceProcessor.preserveNewlines == options.preserveNewlines
      && LineWidth(0, options.wordwrap) >= 1
    }

    /** The word transforms, newest first. */
    function Transforms(): seq<string -> string>
      reads this
    {
      if wordTransformer == null then [] else wordTransformer.transforms
    }

    /** The root block: one leading line break, the configured width. */
    constructor (options: Options)
      requires LineWidth(0, options.wordwrap) >= 1
      ensures this.options == options && Valid()
      ensures whitespaceProcessor.Blanks()
        == if options.preserveNewlines then CharSet(options.whitespaceCharacters) - {'\n'} else CharSet(options.whitespaceCharacters)
      ensures stackItem != null && Stack() == [stackItem] && stackItem.kind == Kind.Block
      ensures stackItem.builder != null && Pristine(stackItem.builder, options, 0)
      ensures stackItem.rawText == "" && stackItem.stashedLineBreaks == 0 && stackItem.leadingLineBreaks == 1
      ensures !stackItem.isPre && !stackItem.isNoWrap
      ensures Transforms() == []
    {
      this.options := options;
      whitespaceProcessor := new WhitespaceProcessor(options.whitespaceCharacters, options.preserveNewlines);
      var root := new StackItem.Block(options, null, 1, 0);
      stackItem := root;
      wordTransformer := null;
      new;
      assert Stack() == [root];
      assert WellFormed(root);
    }

    // ------------------------------------------------------------ word transforms

    /** `pushWordTransform`: the new transform goes in front of the chain. */
    method PushWordTransform(wordTransform: string -> string)
      requires Valid()
      modifies this
      ensures Valid() && stackItem == old(stackItem)
      ensures Transforms() == [wordTransform] + old(Transforms())
      ensures wordTransformer.next == old(wordTransformer)
    {
      wordTransformer := new TransformerStackItem(wordTransformer, wordTransform);
      assert Stack() == old(Stack());
    }

    /** `popWordTransform`: nothing on an empty chain; else the newest transform, restoring the chain below it. */
    method PopWordTransform() returns (transform: Option<string -> string>)
      requires Valid()
      modifies this
      ensures Valid() && stackItem == old(stackItem)
      ensures old(wordTransformer) == null ==> transform.None? && wordTransformer == null
      ensures old(wordTransformer) != null ==>
        (transform == Some(old(Transforms())[0]) && Transforms() == old(Transforms())[1..]
         && wordTransformer == old(wordTransformer.next))
    {
      if wordTransformer == null {
        return None;
      }
      transform := Some(wordTransformer.transform);
      ghost var below := wordTransformer.below;
      wordTransformer := wordTransformer.next;
      assert wordTransformer != null ==> wordTransformer == below[0] && wordTransformer.below == below[1..];
      assert Stack() == old(Stack());
    }

    /**
     * `_getCombinedWordTransformer`: none when there is no chain and no
     * encoder; otherwise the chain, newest transform first, then the encoder.
     */
    function CombinedWordTransformer(): (r: Option<string -> string>)
      reads this
      ensures r.None? <==> wordTransformer == null && options.encodeCharacters.None?
      ensures r.Some? ==> forall s :: r.value(s) == ApplyOptional(options.encodeCharacters, Compose(Transforms(), s))
    {
      var wt: Option<string -> string> := if wordTransformer == null then None else Some(Composed(wordTransformer.transforms));
      var ce := options.encodeCharacters;
      if wt.None? then ce else if ce.None? then wt else Some(Then(wt.value, ce.value))
    }

    /** The transform `addInline` hands to the processor: none at all when asked to skip transforms. */
    function InlineTransform(noWordTransform: bool): string -> string
      reads this
    {
      var combined := CombinedWordTransformer();
      if noWordTransform || combined.None? then Identity else combined.value
    }

    // ------------------------------------------------------------ flags

    /** `startNoWrap`. */
    method StartNoWrap() returns (r: Status)
      requires Valid()
      modifies stackItem
      ensures Valid()
      ensures stackItem == null ==> r.Thrown?
      ensures stackItem != null ==> r == Done && stackItem.isNoWrap
    {
      if stackItem == null {
        return Thrown("Object reference not set to an instance of an object.");
      }
      stackItem.isNoWrap := true;
      r := Done;
    }

    /** `stopNoWrap`. */
    method StopNoWrap() returns (r: Status)
      requires Valid()
      modifies stackItem
      ensures Valid()
      ensures stackItem == null ==> r.Thrown?
      ensures stackItem != null ==> r == Done && !stackItem.isNoWrap
    {
      if stackItem == null {
        return Thrown("Object reference not set to an instance of an object.");
      }
      stackItem.isNoWrap := false;
      r := Done;
    }

    // ------------------------------------------------------------ reading and folding text

    /** `GetText`: only text items hold text; any other scope, or none, throws. */
    method GetText(item: StackItem?) returns (r: Outcome<string>)
      requires item != null ==> WellFormed(item)
      ensures r.Success? <==> item != null && item.IsText()
      ensures r.Success? ==> r.value == Text(item)
    {
      if item == null || !item.IsText() {
        return Failure("Only blocks, list items and table cells can contain text.");
      }
      if item.builder.IsEmpty() {
        r := Success(item.rawText);
      } else {
        var rendered := item.builder.ToString();
        r := Success(item.rawText + rendered);
      }
    }

    /**
     * `AddText`: fold `text` into a text item by the merge rule, clear its
     * inline builder and stash `trailingLineBreaks`; any other scope throws.
     */
    method AddText(item: StackItem?, text: string, leadingLineBreaks: int, trailingLineBreaks: int) returns (r: Status)
      requires item != null ==> WellFormed(item)
      requires leadingLineBreaks >= 0 && trailingLineBreaks >= 0
      modifies Frame(item)
      ensures r.Thrown? <==> item == null || !item.IsText()
      ensures r.Thrown? ==> unchanged(Frame(item))
      ensures r == Done ==> Folded(item, old(State(item)), old(FlagsOf(item)), text, leadingLineBreaks, trailingLineBreaks) && WellFormed(item)
    {
      var parentText := GetText(item);
      if parentText.Failure? {
        return Thrown(parentText.error);
      }
      var lineBreaks := if item.stashedLineBreaks > leadingLineBreaks then item.stashedLineBreaks else leadingLineBreaks;
      item.builder.Clear();
      if !NullOrWhiteSpace(parentText.value) {
        var gap := Strings.Repeat("\n", lineBreaks);
        item.rawText := parentText.value + gap + text;
      } else {
        item.rawText := text;
        item.leadingLineBreaks := lineBreaks;
      }
      item.stashedLineBreaks := trailingLineBreaks;
      r := Done;
    }

    /** `AddText` on the top of the stack, which keeps the stack valid. */
    method AddTextOnTop(text: string, leadingLineBreaks: int, trailingLineBreaks: int) returns (r: Status)
      requires Valid() && leadingLineBreaks >= 0 && trailingLineBreaks >= 0
      modifies Frame(stackItem)
      ensures Valid() && stackItem == old(stackItem)
      ensures r.Thrown? <==> stackItem == null || !stackItem.IsText()
      ensures r.Thrown? ==> unchanged(Frame(stackItem))
      ensures r == Done ==> Folded(stackItem, old(State(stackItem)), old(FlagsOf(stackItem)), text, leadingLineBreaks, trailingLineBreaks)
    {
      r := AddText(stackItem, text, leadingLineBreaks, trailingLineBreaks);
    }

    // ------------------------------------------------------------ inline content

    /** `addLineBreak`: a '\n' in preformatted text, else a new line in the inline builder; other scopes ignore it. */
    method AddLineBreak()
      requires Valid()
      modifies Frame(stackItem)
      ensures Valid() && stackItem == old(stackItem)
      ensures stackItem == null || !stackItem.IsText() ==> unchanged(Frame(stackItem))
      ensures stackItem != null && stackItem.IsText() && stackItem.isPre ==>
        stackItem.rawText == old(stackItem.rawText) + "\n" && unchanged(stackItem.builder)
      ensures stackItem != null && stackItem.IsText() && !stackItem.isPre ==>
        && stackItem.rawText == old(stackItem.rawText)
        && stackItem.builder.Model() == NewLine(old(stackItem.builder.Model()), 1, stackItem.builder.maxLineLength)
        && stackItem.builder.wordBreakOpportunity == old(stackItem.builder.wordBreakOpportunity)
        && stackItem.builder.stashedSpace == old(stackItem.builder.stashedSpace)
      ensures stackItem != null ==>
        && stackItem.isPre == old(stackItem.isPre) && stackItem.isNoWrap == old(stackItem.isNoWrap)
        && stackItem.stashedLineBreaks == old(stackItem.stashedLineBreaks)
        && stackItem.leadingLineBreaks == old(stackItem.leadingLineBreaks)
    {
      if stackItem != null && stackItem.IsText() {
        if stackItem.isPre {
          stackItem.rawText := stackItem.rawText + "\n";
        } else {
          stackItem.builder.StartNewLine(1);
        }
      }
    }

    /**
     * `addInline`: on a text scope, the scope's state becomes `Inlined` of
     * its old state, under the scope's own wrapping and the word transforms
     * (none when `noWordTransform`); any other scope is left alone.
     */
    method AddInline(str: string, noWordTransform: bool)
      requires Valid()
      modifies Frame(stackItem)
      ensures Valid() && stackItem == old(stackItem)
      ensures stackItem == null || !stackItem.IsText() ==> unchanged(Frame(stackItem))
      ensures stackItem != null && stackItem.IsText() ==>
        && Settled(stackItem)
        && State(stackItem)
           == Inlined(old(State(stackItem)), str, stackItem.isPre, whitespaceProcessor.Blanks(),
                      whitespaceProcessor.FeedOf(stackItem.builder, stackItem.isNoWrap, options.preserveNewlines, InlineTransform(noWordTransform)))
    {
      if stackItem == null || !stackItem.IsText() {
        return;
      }
      InlineInto(stackItem, str, InlineTransform(noWordTransform));
    }

    /** `addInline` on a text scope, with the transform it settled on. */
    method InlineInto(item: StackItem, str: string, transform: string -> string)
      requires WellFormed(item) && item.IsText()
      requires whitespaceProcessor.preserveNewlines == options.preserveNewlines
      modifies item, item.builder
      ensures WellFormed(item) && Settled(item)
      ensures State(item)
        == Inlined(old(State(item)), str, item.isPre, whitespaceProcessor.Blanks(),
                   whitespaceProcessor.FeedOf(item.builder, item.isNoWrap, options.preserveNewlines, transform))
    {
      if item.isPre {
        item.rawText := item.rawText + str;
        return;
      }
      if |str| == 0 || (item.stashedLineBreaks > 0 && !whitespaceProcessor.TestContainsWords(str)) {
        return;
      }
      if options.preserveNewlines {
        var newlinesNumber := whitespaceProcessor.CountNewlinesNoWords(str);
        if newlinesNumber > 0 {
          item.builder.StartNewLine(newlinesNumber);
          return;
        }
      }
      FeedInline(item, str, transform);
    }

    /** The last step of `addInline`: flush the stashed breaks, shrink-wrap the text in, clear the stash. */
    method FeedInline(item: StackItem, str: string, transform: string -> string)
      requires WellFormed(item) && item.IsText() && str != []
      modifies item, item.builder
      ensures WellFormed(item) && Settled(item)
      ensures State(item)
        == Fed(old(State(item)), str, whitespaceProcessor.Blanks(),
               whitespaceProcessor.FeedOf(item.builder, item.isNoWrap, whitespaceProcessor.preserveNewlines, transform))
    {
      if item.stashedLineBreaks > 0 {
        item.builder.StartNewLine(item.stashedLineBreaks);
      }
      whitespaceProcessor.ShrinkWrapAdd(str, item.builder, transform, item.isNoWrap);
      item.stashedLineBreaks := 0;
    }

    /**
     * `addLiteral`: on a text scope, the scope's state becomes `Literal` of
     * its old state under the scope's own wrapping; any other scope is left alone.
     */
    method AddLiteral(str: string)
      requires Valid()
      modifies Frame(stackItem)
      ensures Valid() && stackItem == old(stackItem)
      ensures stackItem == null || !stackItem.IsText() ==> unchanged(Frame(stackItem))
      ensures stackItem != null && stackItem.IsText() ==>
        && Settled(stackItem)
        && State(stackItem)
           == Literal(old(State(stackItem)), str, stackItem.isPre, whitespaceProcessor.FeedOf(stackItem.builder, stackItem.isNoWrap, true, Identity))
    {
      if stackItem == null || !stackItem.IsText() {
        return;
      }
      LiteralInto(stackItem, str);
    }

    /** `addLiteral` on a text scope. */
    method LiteralInto(item: StackItem, str: string)
      requires WellFormed(item) && item.IsText()
      modifies item, item.builder
      ensures WellFormed(item) && Settled(item)
      ensures State(item) == Literal(old(State(item)), str, item.isPre, whitespaceProcessor.FeedOf(item.builder, item.isNoWrap, true, Identity))
    {
      if |str| == 0 {
        return;
      }
      if item.isPre {
        item.rawText := item.rawText + str;
        return;
      }
      if item.stashedLineBreaks > 0 {
        item.builder.StartNewLine(item.stashedLineBreaks);
      }
      whitespaceProcessor.AddLiteral(str, item.builder, item.isNoWrap);
      item.stashedLineBreaks := 0;
    }

    /** `addWordBreakOpportunity`: the next glued word may start a new line; other scopes ignore it. */
    method AddWordBreakOpportunity()
      requires Valid()
      modifies Frame(stackItem)
      ensures Valid() && stackItem == old(stackItem)
      ensures stackItem == null || !stackItem.IsText() ==> unchanged(Frame(stackItem))
      ensures stackItem != null && stackItem.IsText() ==>
        && unchanged(stackItem)
        && stackItem.builder.Model() == old(stackItem.builder.Model())
        && stackItem.builder.wordBreakOpportunity
        && stackItem.builder.stashedSpace == old(stackItem.builder.stashedSpace)
    {
      if stackItem != null && stackItem.IsText() {
        stackItem.builder.wordBreakOpportunity := true;
      }
    }

    // ------------------------------------------------------------ the stack

    /** The objects a call that pops may change: the top scope, the one below it, and their builders. */
    function Open(): set<object>
      reads this
    {
      Frame(stackItem) + (if stackItem == null then {} else Frame(stackItem.next))
    }

    /** A new scope goes on top of the stack. */
    method Push(item: StackItem)
      requires Valid() && item.next == stackItem && item.Linked() && WellFormed(item)
      modifies this
      ensures Valid() && stackItem == item && Stack() == [item] + old(Stack())
    {
      stackItem := item;
      assert Stack() == [item] + old(Stack());
    }

    /** `_popStackItem`: the top scope comes off the stack. */
    method Pop() returns (item: StackItem)
      requires Valid() && stackItem != null
      modifies this
      ensures Valid() && item == old(stackItem) && WellFormed(item)
      ensures stackItem == item.next && Stack() == old(Stack())[1..]
    {
      ghost var before := Stack();
      item := stackItem;
      stackItem := item.next;
      assert stackItem != null ==> stackItem == item.below[0] && stackItem.below == item.below[1..];
      assert Stack() == before[1..];
      assert stackItem != null && stackItem.next != null ==> stackItem.next == before[2];
    }

    /**
     * `openBlock`: on a text scope, a block goes on top, `reservedLineLength`
     * narrower than its parent but never below 20, preformatted if asked or
     * if its parent is; any other scope is left alone.
     */
    method OpenBlock(leadingLineBreaks: int, reservedLineLength: int, isPre: bool)
      requires Valid() && leadingLineBreaks >= 0
      modifies this
      ensures Valid()
      ensures old(stackItem) == null || !old(stackItem).IsText() ==> stackItem == old(stackItem)
      ensures old(stackItem) != null && old(stackItem).IsText() ==>
        && fresh(stackItem) && Stack() == [stackItem] + old(Stack()) && stackItem.kind == Kind.Block
        && Pristine(stackItem.builder, options, Max(20, old(stackItem.builder.maxLineLength) - reservedLineLength))
        && stackItem.rawText == "" && stackItem.stashedLineBreaks == 0 && stackItem.leadingLineBreaks == leadingLineBreaks
        && stackItem.isPre == (isPre || old(stackItem.isPre)) && stackItem.isNoWrap == old(stackItem.isNoWrap)
    {
      if stackItem == null || !stackItem.IsText() {
        return;
      }
      var maxLineLength := Max(20, stackItem.builder.maxLineLength - reservedLineLength);
      var block := new StackItem.Block(options, stackItem, leadingLineBreaks, maxLineLength);
      if isPre {
        block.isPre := true;
      }
      Push(block);
    }

    /**
     * `closeBlock`: the top scope comes off (an empty stack throws); a scope
     * without text throws; otherwise its text, through `blockTransform` when
     * given, is folded into the scope below with the larger of its stashed
     * breaks and `trailingLineBreaks`, which throws when that scope holds no text.
     */
    method CloseBlock(trailingLineBreaks: int, blockTransform: Option<string -> string>) returns (r: Status)
      requires Valid() && trailingLineBreaks >= 0
      modifies this, Open()
      ensures Valid()
      ensures old(stackItem) == null ==> r.Thrown? && stackItem == null
      ensures old(stackItem) != null ==> stackItem == old(stackItem.next) && Stack() == old(Stack())[1..]
      ensures r == Done <==> old(stackItem) != null && old(stackItem).IsText() && stackItem != null && stackItem.IsText()
      ensures r.Thrown? && stackItem != null ==> unchanged(Frame(stackItem))
      ensures r == Done ==>
        Folded(stackItem, old(State(stackItem.next)), old(FlagsOf(stackItem.next)),
               ApplyOptional(blockTransform, old(Text(stackItem))), old(stackItem.leadingLineBreaks),
               Max(old(stackItem.stashedLineBreaks), trailingLineBreaks))
    {
      if stackItem == null {
        return Thrown("Object reference not set to an instance of an object.");
      }
      var block := Pop();
      if !block.IsText() {
        return Thrown("close block called with no text stack item");
      }
      assert Text(block) == old(Text(stackItem));
      assert stackItem != null && stackItem.IsText() ==>
        State(stackItem) == old(State(stackItem.next)) && FlagsOf(stackItem) == old(FlagsOf(stackItem.next));
      r := FoldBlock(block, trailingLineBreaks, blockTransform);
    }

    /** The block `block`, just taken off the stack, folded into the scope below it. */
    method FoldBlock(block: StackItem, trailingLineBreaks: int, blockTransform: Option<string -> string>) returns (r: Status)
      requires Valid() && WellFormed(block) && block.IsText() && stackItem == block.next && trailingLineBreaks >= 0
      modifies Frame(stackItem)
      ensures Valid() && stackItem == old(stackItem)
      ensures r == Done <==> stackItem != null && stackItem.IsText()
      ensures r.Thrown? ==> unchanged(Frame(stackItem))
      ensures r == Done ==>
        Folded(stackItem, old(State(stackItem)), old(FlagsOf(stackItem)), ApplyOptional(blockTransform, old(Text(block))),
               old(block.leadingLineBreaks), Max(old(block.stashedLineBreaks), trailingLineBreaks))
    {
      var blockText := GetText(block);
      var text := ApplyOptional(blockTransform, blockText.value);
      r := AddTextOnTop(text, block.leadingLineBreaks, Max(block.stashedLineBreaks, trailingLineBreaks));
    }

    /**
     * `openList`: a list goes on top of a text scope, as wide as that scope;
     * any other scope, or an empty stack, throws.
     */
    method OpenList(maxPrefixLength: int, prefixAlign: string, interRowLineBreaks: int, leadingLineBreaks: int) returns (r: Status)
      requires Valid() && interRowLineBreaks >= 0 && leadingLineBreaks >= 0
      modifies this
      ensures Valid()
      ensures r.Thrown? <==> old(stackItem) == null || !old(stackItem).IsText()
      ensures r.Thrown? ==> stackItem == old(stackItem)
      ensures r == Done ==>
        && fresh(stackItem) && Stack() == [stackItem] + old(Stack())
        && stackItem.kind == Kind.List(maxPrefixLength, prefixAlign, interRowLineBreaks)
        && Pristine(stackItem.builder, options, old(stackItem.builder.maxLineLength))
        && stackItem.rawText == "" && stackItem.stashedLineBreaks == 0 && stackItem.leadingLineBreaks == leadingLineBreaks
        && stackItem.isPre == old(stackItem.isPre) && stackItem.isNoWrap == old(stackItem.isNoWrap)
    {
      if stackItem == null || !stackItem.IsText() {
        return Thrown("open list called without a text stack item");
      }
      var list := new StackItem.List(options, stackItem, interRowLineBreaks, leadingLineBreaks,
                                     stackItem.builder.maxLineLength, maxPrefixLength, prefixAlign);
      Push(list);
      r := Done;
    }

    /**
     * `openListItem`: on a list, an item goes on top, narrower than the list
     * by the prefix width but never below 20, separated from the previous
     * item by the list's row spacing; on anything else it throws.
     */
    method OpenListItem(prefix: string) returns (r: Status)
      requires Valid()
      modifies this
      ensures Valid()
      ensures r.Thrown? <==> old(stackItem) == null || !old(stackItem).kind.List?
      ensures r.Thrown? ==> stackItem == old(stackItem)
      ensures r == Done ==>
        && fresh(stackItem) && Stack() == [stackItem] + old(Stack())
        && stackItem.kind == Kind.ListItem(prefix)
        && Pristine(stackItem.builder, options,
                    Max(20, old(stackItem.builder.maxLineLength) - PrefixWidth(prefix, old(stackItem.kind.maxPrefixLength))))
        && stackItem.rawText == "" && stackItem.stashedLineBreaks == 0
        && stackItem.leadingLineBreaks == old(stackItem.kind.interRowLineBreaks)
        && stackItem.isPre == old(stackItem.isPre) && stackItem.isNoWrap == old(stackItem.isNoWrap)
    {
      if stackItem == null || !stackItem.kind.List? {
        return Thrown("Can't add a list item to something that is not a list! Check the formatter.");
      }
      var prefixLength := PrefixWidth(prefix, stackItem.kind.maxPrefixLength);
      var maxLineLength := Max(20, stackItem.builder.maxLineLength - prefixLength);
      var item := new StackItem.ListItem(options, stackItem, stackItem.kind.interRowLineBreaks, maxLineLength, prefix);
      Push(item);
      r := Done;
    }

    /**
     * `closeListItem`: the top scope comes off (an empty stack throws); a
     * scope that is not a list item throws; otherwise its text, behind its
     * padded prefix and with a hanging indent, is folded into its list with
     * at least the list's row spacing after it.
     */
    method CloseListItem() returns (r: Status)
      requires Valid()
      modifies this, Open()
      ensures Valid()
      ensures old(stackItem) == null ==> r.Thrown? && stackItem == null
      ensures old(stackItem) != null ==> stackItem == old(stackItem.next) && Stack() == old(Stack())[1..]
      ensures r == Done <==> old(stackItem) != null && old(stackItem).kind.ListItem?
      ensures r.Thrown? && stackItem != null ==> unchanged(Frame(stackItem))
      ensures r == Done ==>
        && stackItem != null && stackItem.kind.List? && stackItem.builder != null
        && Folded(stackItem, old(State(stackItem.next)), old(FlagsOf(stackItem.next)),
                  ListItemText(old(stackItem.kind.prefix), stackItem.kind.maxPrefixLength, stackItem.kind.prefixAlign, old(Text(stackItem))),
                  old(stackItem.leadingLineBreaks), Max(old(stackItem.stashedLineBreaks), stackItem.kind.interRowLineBreaks))
    {
      if stackItem == null {
        return Thrown("Object reference not set to an instance of an object.");
      }
      var listItem := Pop();
      if !listItem.kind.ListItem? {
        return Thrown("Object reference not set to an instance of an object.");
      }
      assert Text(listItem) == old(Text(stackItem));
      assert State(stackItem) == old(State(stackItem.next)) && FlagsOf(stackItem) == old(FlagsOf(stackItem.next));
      r := FoldListItem(listItem);
    }

    /** The list item `listItem`, just taken off the stack, folded into its list below it. */
    method FoldListItem(listItem: StackItem) returns (r: Status)
      requires Valid() && WellFormed(listItem) && listItem.kind.ListItem? && stackItem == listItem.next
      modifies Frame(stackItem)
      ensures Valid() && stackItem == old(stackItem) && r == Done
      ensures stackItem.builder != null
      ensures Folded(stackItem, old(State(stackItem)), old(FlagsOf(stackItem)),
                     ListItemText(listItem.kind.prefix, stackItem.kind.maxPrefixLength, stackItem.kind.prefixAlign, old(Text(listItem))),
                     old(listItem.leadingLineBreaks), Max(old(listItem.stashedLineBreaks), stackItem.kind.interRowLineBreaks))
    {
      var list := listItem.next;
      var itemText := GetText(listItem);
      var text := ListItemText(listItem.kind.prefix, list.kind.maxPrefixLength, list.kind.prefixAlign, itemText.value);
      r := AddTextOnTop(text, listItem.leadingLineBreaks, Max(listItem.stashedLineBreaks, list.kind.interRowLineBreaks));
    }

    /**
     * `closeList`: the top scope comes off (an empty stack throws); a scope
     * that is not a list is dropped silently; a list's text is folded into
     * the scope below, which throws when that scope holds no text.
     */
    method CloseList(trailingLineBreaks: int) returns (r: Status)
      requires Valid() && trailingLineBreaks >= 0
      modifies this, Open()
      ensures Valid()
      ensures old(stackItem) == null ==> r.Thrown? && stackItem == null
      ensures old(stackItem) != null ==> stackItem == old(stackItem.next) && Stack() == old(Stack())[1..]
      ensures r.Thrown? <==> old(stackItem) == null || (old(stackItem).kind.List? && (stackItem == null || !stackItem.IsText()))
      ensures old(stackItem) != null && !old(stackItem).kind.List? && stackItem != null ==> unchanged(Frame(stackItem))
      ensures r.Thrown? && stackItem != null ==> unchanged(Frame(stackItem))
      ensures r == Done && old(stackItem).kind.List? ==>
        && stackItem != null && stackItem.builder != null
        && Folded(stackItem, old(State(stackItem.next)), old(FlagsOf(stackItem.next)),
                  old(Text(stackItem)), old(stackItem.leadingLineBreaks), trailingLineBreaks)
    {
      if stackItem == null {
        return Thrown("Object reference not set to an instance of an object.");
      }
      var list := Pop();
      if !list.kind.List? {
        return Done;
      }
      assert Text(list) == old(Text(stackItem));
      assert stackItem != null && stackItem.IsText() ==>
        State(stackItem) == old(State(stackItem.next)) && FlagsOf(stackItem) == old(FlagsOf(stackItem.next));
      r := FoldList(list, trailingLineBreaks);
    }

    /** The list `list`, just taken off the stack, folded into the scope below it. */
    method FoldList(list: StackItem, trailingLineBreaks: int) returns (r: Status)
      requires Valid() && WellFormed(list) && list.kind.List? && stackItem == list.next && trailingLineBreaks >= 0
      modifies Frame(stackItem)
      ensures Valid() && stackItem == old(stackItem)
      ensures r == Done <==> stackItem != null && stackItem.IsText()
      ensures r.Thrown? ==> unchanged(Frame(stackItem))
      ensures r == Done ==>
        Folded(stackItem, old(State(stackItem)), old(FlagsOf(stackItem)), old(Text(list)), old(list.leadingLineBreaks),
               trailingLineBreaks)
    {
      var text := GetText(list);
      r := AddTextOnTop(text.value, list.leadingLineBreaks, trailingLineBreaks);
    }

    /** `openTable`: a table goes on top of whatever is there, even of an empty stack. */
    method OpenTable()
      requires Valid()
      modifies this
      ensures Valid()
      ensures fresh(stackItem) && Stack() == [stackItem] + old(Stack()) && stackItem.kind == Kind.Table
      ensures stackItem.rows == [] && stackItem.cells == [] && stackItem.builder == null
      ensures stackItem.isPre == (old(stackItem) != null && old(stackItem.isPre))
      ensures stackItem.isNoWrap == (old(stackItem) != null && old(stackItem.isNoWrap))
    {
      var table := new StackItem.Table(stackItem);
      Push(table);
    }

    /** `openTableRow`: on a table, a row goes on top; on anything else it throws. */
    method OpenTableRow() returns (r: Status)
      requires Valid()
      modifies this
      ensures Valid()
      ensures r.Thrown? <==> old(stackItem) == null || !old(stackItem).kind.Table?
      ensures r.Thrown? ==> stackItem == old(stackItem)
      ensures r == Done ==>
        && fresh(stackItem) && Stack() == [stackItem] + old(Stack()) && stackItem.kind == Kind.TableRow
        && stackItem.cells == [] && stackItem.builder == null
        && stackItem.isPre == old(stackItem.isPre) && stackItem.isNoWrap == old(stackItem.isNoWrap)
    {
      if stackItem == null || !stackItem.kind.Table? {
        return Thrown("Can't add a table row to something that is not a table! Check the formatter.");
      }
      var row := new StackItem.TableRow(stackItem);
      Push(row);
      r := Done;
    }

    /**
     * `openTableCell`: on a row, a cell goes on top, wrapped at
     * `maxColumnWidth` (0 falls back to the wordwrap option); on anything
     * else it throws.
     */
    method OpenTableCell(maxColumnWidth: int) returns (r: Status)
      requires Valid() && maxColumnWidth >= 0
      modifies this
      ensures Valid()
      ensures r.Thrown? <==> old(stackItem) == null || !old(stackItem).kind.TableRow?
      ensures r.Thrown? ==> stackItem == old(stackItem)
      ensures r == Done ==>
        && fresh(stackItem) && Stack() == [stackItem] + old(Stack()) && stackItem.kind == Kind.TableCell
        && Pristine(stackItem.builder, options, maxColumnWidth)
        && stackItem.rawText == "" && stackItem.stashedLineBreaks == 0 && stackItem.leadingLineBreaks == 0
        && stackItem.isPre == old(stackItem.isPre) && stackItem.isNoWrap == old(stackItem.isNoWrap)
    {
      if stackItem == null || !stackItem.kind.TableRow? {
        return Thrown("Can't add a table cell to something that is not a table row! Check the formatter.");
      }
      var cell := new StackItem.TableCell(options, stackItem, maxColumnWidth);
      Push(cell);
      r := Done;
    }

    /**
     * `closeTableCell`: the top scope comes off (an empty stack throws); a
     * scope without text throws; its text, without leading and trailing
     * newlines, is appended as a cell to the row below, if a row is below.
     */
    method CloseTableCell(colspan: int, rowspan: int) returns (r: Status)
      requires Valid()
      modifies this, Open()
      ensures Valid()
      ensures old(stackItem) == null ==> stackItem == null
      ensures old(stackItem) != null ==> stackItem == old(stackItem.next) && Stack() == old(Stack())[1..]
      ensures r.Thrown? <==> old(stackItem) == null || !old(stackItem).IsText()
      ensures r == Done && stackItem != null && stackItem.kind.TableRow? ==>
        && stackItem.cells == old(stackItem.next.cells) + [TablePrinter.Cell(rowspan, colspan, Strings.TrimChar(old(Text(stackItem)), '\n'))]
        && stackItem.rows == old(stackItem.next.rows) && stackItem.rawText == old(stackItem.next.rawText)
        && stackItem.stashedLineBreaks == old(stackItem.next.stashedLineBreaks)
        && stackItem.leadingLineBreaks == old(stackItem.next.leadingLineBreaks)
        && stackItem.isPre == old(stackItem.next.isPre) && stackItem.isNoWrap == old(stackItem.next.isNoWrap)
      ensures old(stackItem) != null && (r.Thrown? || stackItem == null || !stackItem.kind.TableRow?) ==>
        stackItem == null || unchanged(stackItem)
    {
      if stackItem == null {
        return Thrown("Object reference not set to an instance of an object.");
      }
      var cell := Pop();
      assert cell.IsText() ==> Text(cell) == old(Text(stackItem));
      r := FileCell(cell, colspan, rowspan);
    }

    /**
     * The cell `cell`, just taken off the stack, filed with the row below it;
     * below anything else it is dropped.
     */
    method FileCell(cell: StackItem, colspan: int, rowspan: int) returns (r: Status)
      requires Valid() && WellFormed(cell) && stackItem == cell.next
      modifies Frame(stackItem)
      ensures Valid() && stackItem == old(stackItem)
      ensures r.Thrown? <==> !cell.IsText()
      ensures r == Done && stackItem != null && stackItem.kind.TableRow? ==>
        && stackItem.cells == old(stackItem.cells) + [TablePrinter.Cell(rowspan, colspan, Strings.TrimChar(old(Text(cell)), '\n'))]
        && stackItem.rows == old(stackItem.rows) && stackItem.rawText == old(stackItem.rawText)
        && stackItem.stashedLineBreaks == old(stackItem.stashedLineBreaks)
        && stackItem.leadingLineBreaks == old(stackItem.leadingLineBreaks)
        && stackItem.isPre == old(stackItem.isPre) && stackItem.isNoWrap == old(stackItem.isNoWrap)
      ensures r.Thrown? || stackItem == null || !stackItem.kind.TableRow? ==> stackItem == null || unchanged(stackItem)
    {
      var text := GetText(cell);
      if text.Failure? {
        return Thrown(text.error);
      }
      if stackItem == null || !stackItem.kind.TableRow? {
        return Done;
      }
      AddCell(TablePrinter.Cell(rowspan, colspan, Strings.TrimChar(text.value, '\n')));
      r := Done;
    }

    /** The row on top gains one cell. */
    method AddCell(cell: TablePrinter.Cell)
      requires Valid() && stackItem != null && stackItem.kind.TableRow?
      modifies stackItem
      ensures Valid()
      ensures stackItem.cells == old(stackItem.cells) + [cell]
      ensures stackItem.rows == old(stackItem.rows) && stackItem.rawText == old(stackItem.rawText)
      ensures stackItem.stashedLineBreaks == old(stackItem.stashedLineBreaks)
      ensures stackItem.leadingLineBreaks == old(stackItem.leadingLineBreaks)
      ensures stackItem.isPre == old(stackItem.isPre) && stackItem.isNoWrap == old(stackItem.isNoWrap)
    {
      stackItem.cells := stackItem.cells + [cell];
    }

    /**
     * `closeTableRow`: the top scope comes off (an empty stack throws); a row
     * hands its cells, as one more row, to the table below, if a table is
     * below; anything else is dropped silently.
     */
    method CloseTableRow() returns (r: Status)
      requires Valid()
      modifies this, Open()
      ensures Valid()
      ensures r.Thrown? <==> old(stackItem) == null
      ensures old(stackItem) != null ==> stackItem == old(stackItem.next) && Stack() == old(Stack())[1..]
      ensures old(stackItem) != null && old(stackItem).kind.TableRow? && stackItem != null && stackItem.kind.Table? ==>
        && stackItem.rows == old(stackItem.next.rows) + [old(stackItem.cells)]
        && stackItem.cells == old(stackItem.next.cells)
        && stackItem.isPre == old(stackItem.next.isPre) && stackItem.isNoWrap == old(stackItem.next.isNoWrap)
      ensures old(stackItem) != null && (!old(stackItem).kind.TableRow? || stackItem == null || !stackItem.kind.Table?) ==>
        stackItem == null || unchanged(stackItem)
    {
      if stackItem == null {
        return Thrown("Object reference not set to an instance of an object.");
      }
      var row := Pop();
      r := Done;
      if !row.kind.TableRow? {
        return;
      }
      if stackItem == null || !stackItem.kind.Table? {
        return;
      }
      stackItem.rows := stackItem.rows + [row.cells];
    }

    /**
     * `closeTable`: the top scope comes off (an empty stack throws); a scope
     * that is not a table throws; the table's rows, rendered by
     * `tableToString`, are folded into the scope below, which throws when
     * that scope holds no text.
     */
    method CloseTable(tableToString: (seq<seq<TablePrinter.Cell>>, int, int) -> string, leadingLineBreaks: int, trailingLineBreaks: int)
      returns (r: Status)
      requires Valid() && leadingLineBreaks >= 0 && trailingLineBreaks >= 0
      modifies this, Open()
      ensures Valid()
      ensures old(stackItem) == null ==> stackItem == null
      ensures old(stackItem) != null ==> stackItem == old(stackItem.next) && Stack() == old(Stack())[1..]
      ensures r == Done <==> old(stackItem) != null && old(stackItem).kind.Table? && stackItem != null && stackItem.IsText()
      ensures r.Thrown? && stackItem != null ==> unchanged(Frame(stackItem))
      ensures r == Done ==>
        Folded(stackItem, old(State(stackItem.next)), old(FlagsOf(stackItem.next)),
               tableToString(old(stackItem.rows), 0, 0), leadingLineBreaks, trailingLineBreaks)
    {
      if stackItem == null {
        return Thrown("Object reference not set to an instance of an object.");
      }
      var table := Pop();
      if !table.kind.Table? {
        return Thrown("Object reference not set to an instance of an object.");
      }
      var output := tableToString(table.rows, 0, 0);
      assert stackItem != null && stackItem.IsText() ==>
        State(stackItem) == old(State(stackItem.next)) && FlagsOf(stackItem) == old(FlagsOf(stackItem.next));
      r := AddTextOnTop(output, leadingLineBreaks, trailingLineBreaks);
    }

    /**
     * `ToString`: the text of the scope one level down from the top (the
     * top itself when alone); an empty stack or a scope without text throws.
     */
    method ToString() returns (r: Outcome<string>)
      requires Valid()
      ensures r.Success? <==> stackItem != null && stackItem.GetRoot().IsText()
      ensures r.Success? ==> r.value == Text(stackItem.GetRoot())
    {
      if stackItem == null {
        return Failure("Object reference not set to an instance of an object.");
      }
      r := GetText(stackItem.GetRoot());
    }
  }
}
