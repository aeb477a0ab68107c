/**
 * The scopes of the block builder: blocks, lists, list items, tables, rows
 * and cells, each linked to the scope it was opened in, and the chain of
 * word transforms.
 */
module StackItems {
  import opened Wrappers
  import opened InlineText
  import TablePrinter

  /** The options the layout engine reads. */
  datatype Options = Options(
    wordwrap: Option<int>,
    wrapCharacters: Option<string>,
    forceWrapOnLimit: Option<bool>,
    whitespaceCharacters: string,
    preserveNewlines: bool,
    encodeCharacters: Option<string -> string>)

  /** What kind of scope an item is, with the settings lists and list items carry. */
  datatype Kind =
    | Block
    | List(maxPrefixLength: int, prefixAlign: string, interRowLineBreaks: int)
    | ListItem(prefix: string)
    | Table
    | TableRow
    | TableCell

  /** Blocks, lists, list items and table cells carry text; tables and rows do not. */
  predicate IsTextKind(kind: Kind) {
    kind.Block? || kind.List? || kind.ListItem? || kind.TableCell?
  }

  /** A builder as a text item's constructor leaves it: empty, of the given width. */
  predicate Pristine(b: InlineTextBuilder, options: Options, width: int)
    reads b
  {
    && b.maxLineLength == LineWidth(width, options.wordwrap)
    && b.wrapCharacters == (if options.wrapCharacters.Some? then options.wrapCharacters.value else "")
    && b.forceWrapOnLimit == (options.forceWrapOnLimit.Some? && options.forceWrapOnLimit.value)
    && b.lines == [] && b.nextLineWords == [] && b.nextLineAvailableChars == b.maxLineLength
    && !b.wordBreakOpportunity && !b.stashedSpace
    && b.Valid() && b.IsEmpty()
  }

  /**
   * One scope. `next` is the scope it was opened in; `below` lists that
   * scope and everything under it, nearest first. Text items own an inline
   * builder; tables collect rows and rows collect cells.
   */
  class StackItem {
    const next: StackItem?
    ghost const below: seq<StackItem>
    const kind: Kind
    const builder: InlineTextBuilder?
    var isPre: bool
    var isNoWrap: bool
    var rawText: string
    var stashedLineBreaks: int
    var leadingLineBreaks: int
    var rows: seq<seq<TablePrinter.Cell>>
    var cells: seq<TablePrinter.Cell>

    /** `below` is `next` followed by what lies below `next`. */
    ghost predicate Linked() {
      below == if next == null then [] else [next] + next.below
    }

    predicate IsText() {
      IsTextKind(kind)
    }

    /**
     * `GetRoot`: the scope one level down, or the item itself at the bottom.
     * It takes one step: it is the bottom of the chain only when the chain
     * has at most two items.
     */
    function GetRoot(): (r: StackItem)
      requires Linked()
      ensures |below| == 0 ==> r == this
      ensures |below| > 0 ==> r == below[0] && |r.below| == |below| - 1
    {
      if next != null then next else this
    }

    /** `BlockStackItem`: empty text, no stashed breaks, flags inherited from the parent. */
    constructor Block(options: Options, next: StackItem?, leadingLineBreaks: int, maxLineLength: int)
      ensures this.next == next && kind == Kind.Block && Linked()
      ensures builder != null && fresh(builder) && Pristine(builder, options, maxLineLength)
      ensures rawText == "" && stashedLineBreaks == 0 && this.leadingLineBreaks == leadingLineBreaks
      ensures isPre == (next != null && next.isPre) && isNoWrap == (next != null && next.isNoWrap)
      ensures rows == [] && cells == []
    {
      this.next := next;
      below := if next == null then [] else [next] + next.below;
      kind := Kind.Block;
      builder := new InlineTextBuilder(options.wordwrap, options.wrapCharacters, options.forceWrapOnLimit, maxLineLength);
      rawText := "";
      stashedLineBreaks := 0;
      this.leadingLineBreaks := leadingLineBreaks;
      isPre := next != null && next.isPre;
      isNoWrap := next != null && next.isNoWrap;
      rows := [];
      cells := [];
    }

    /** `ListStackItem`: a block that also records the prefix width, alignment and row spacing. */
    constructor List(options: Options, next: StackItem?, interRowLineBreaks: int, leadingLineBreaks: int,
                     maxLineLength: int, maxPrefixLength: int, prefixAlign: string)
      ensures this.next == next && kind == Kind.List(maxPrefixLength, prefixAlign, interRowLineBreaks) && Linked()
      ensures builder != null && fresh(builder) && Pristine(builder, options, maxLineLength)
      ensures rawText == "" && stashedLineBreaks == 0 && this.leadingLineBreaks == leadingLineBreaks
      ensures isPre == (next != null && next.isPre) && isNoWrap == (next != null && next.isNoWrap)
      ensures rows == [] && cells == []
    {
      this.next := next;
      below := if next == null then [] else [next] + next.below;
      kind := Kind.List(maxPrefixLength, prefixAlign, interRowLineBreaks);
      builder := new InlineTextBuilder(options.wordwrap, options.wrapCharacters, options.forceWrapOnLimit, maxLineLength);
      rawText := "";
      stashedLineBreaks := 0;
      this.leadingLineBreaks := leadingLineBreaks;
      isPre := next != null && next.isPre;
      isNoWrap := next != null && next.isNoWrap;
      rows := [];
      cells := [];
    }

    /** `ListItemStackItem`: a block that also records its prefix. */
    constructor ListItem(options: Options, next: StackItem?, leadingLineBreaks: int, maxLineLength: int, prefix: string)
      ensures this.next == next && kind == Kind.ListItem(prefix) && Linked()
      ensures builder != null && fresh(builder) && Pristine(builder, options, maxLineLength)
      ensures rawText == "" && stashedLineBreaks == 0 && this.leadingLineBreaks == leadingLineBreaks
      ensures isPre == (next != null && next.isPre) && isNoWrap == (next != null && next.isNoWrap)
      ensures rows == [] && cells == []
    {
      this.next := next;
      below := if next == null then [] else [next] + next.below;
      kind := Kind.ListItem(prefix);
      builder := new InlineTextBuilder(options.wordwrap, options.wrapCharacters, options.forceWrapOnLimit, maxLineLength);
      rawText := "";
      stashedLineBreaks := 0;
      this.leadingLineBreaks := leadingLineBreaks;
      isPre := next != null && next.isPre;
      isNoWrap := next != null && next.isNoWrap;
      rows := [];
      cells := [];
    }

    /** `TableStackItem`: no text, no rows yet. */
    constructor Table(next: StackItem?)
      ensures this.next == next && kind == Kind.Table && Linked() && builder == null
      ensures rawText == "" && stashedLineBreaks == 0 && leadingLineBreaks == 0
      ensures isPre == (next != null && next.isPre) && isNoWrap == (next != null && next.isNoWrap)
      ensures rows == [] && cells == []
    {
      this.next := next;
      below := if next == null then [] else [next] + next.below;
      kind := Kind.Table;
      builder := null;
      rawText := "";
      stashedLineBreaks := 0;
      leadingLineBreaks := 0;
      isPre := next != null && next.isPre;
      isNoWrap := next != null && next.isNoWrap;
      rows := [];
      cells := [];
    }

    /** `TableRowStackItem`: no text, no cells yet. */
    constructor TableRow(next: StackItem?)
      ensures this.next == next && kind == Kind.TableRow && Linked() && builder == null
      ensures rawText == "" && stashedLineBreaks == 0 && leadingLineBreaks == 0
      ensures isPre == (next != null && next.isPre) && isNoWrap == (next != null && next.isNoWrap)
      ensures rows == [] && cells == []
    {
      this.next := next;
      below := if next == null then [] else [next] + next.below;
      kind := Kind.TableRow;
      builder := null;
      rawText := "";
      stashedLineBreaks := 0;
      leadingLineBreaks := 0;
      isPre := next != null && next.isPre;
      isNoWrap := next != null && next.isNoWrap;
      rows := [];
      cells := [];
    }

    /** `TableCellStackItem`: text of its own, wrapped to the column width (0 for the global one). */
    constructor TableCell(options: Options, next: StackItem?, maxColumnWidth: int)
      ensures this.next == next && kind == Kind.TableCell && Linked()
      ensures builder != null && fresh(builder) && Pristine(builder, options, maxColumnWidth)
      ensures rawText == "" && stashedLineBreaks == 0 && leadingLineBreaks == 0
      ensures isPre == (next != null && next.isPre) && isNoWrap == (next != null && next.isNoWrap)
      ensures rows == [] && cells == []
    {
      this.next := next;
      below := if next == null then [] else [next] + next.below;
      kind := Kind.TableCell;
      builder := new InlineTextBuilder(options.wordwrap, options.wrapCharacters, options.forceWrapOnLimit, maxColumnWidth);
      rawText := "";
      stashedLineBreaks := 0;
      leadingLineBreaks := 0;
      isPre := next != null && next.isPre;
      isNoWrap := next != null && next.isNoWrap;
      rows := [];
      cells := [];
    }
  }

  /** A chain item is linked to the whole chain under it. */
  ghost predicate ChainLinked(item: StackItem) {
    item.Linked() && forall k :: 0 <= k < |item.below| ==> item.below[k].Linked()
  }

  // ---------------------------------------------------------------- word transforms

  /** Every transform in turn, the first one first. */
  function Compose(transforms: seq<string -> string>, s: string): string
    decreases |transforms|
  {
    if transforms == [] then s else Compose(transforms[1..], transforms[0](s))
  }

  /** The last transform of the sequence is the one applied last. */
  lemma {:induction false} ComposeLast(transforms: seq<string -> string>, last: string -> string, s: string)
    ensures Compose(transforms + [last], s) == last(Compose(transforms, s))
    decreases |transforms|
  {
    if transforms == [] {
      assert ([] + [last])[1..] == [];
    } else {
      assert (transforms + [last])[1..] == transforms[1..] + [last];
      ComposeLast(transforms[1..], last, transforms[0](s));
    }
  }

  /**
   * `TransformerStackItem`: a transform linked in front of the chain pushed
   * before it. `transforms` is the whole chain as a value, newest first.
   */
  class TransformerStackItem {
    const next: TransformerStackItem?
    const transform: string -> string
    const transforms: seq<string -> string>
    ghost const below: seq<TransformerStackItem>

    ghost predicate Linked() {
      && below == (if next == null then [] else [next] + next.below)
      && transforms == [transform] + (if next == null then [] else next.transforms)
    }

    constructor (next: TransformerStackItem?, transform: string -> string)
      ensures this.next == next && this.transform == transform && Linked()
      ensures transforms == [transform] + (if next == null then [] else next.transforms)
    {
      this.next := next;
      this.transform := transform;
      transforms := [transform] + (if next == null then [] else next.transforms);
      below := if next == null then [] else [next] + next.below;
    }

    /** `GetRoot`: `Next ?? this`. */
    function GetRoot(): (r: TransformerStackItem)
      requires Linked()
      ensures |below| == 0 ==> r == this
      ensures |below| > 0 ==> r == below[0] && |r.below| == |below| - 1
    {
      if next != null then next else this
    }
  }

  ghost predicate TransformChain(t: TransformerStackItem) {
    t.Linked() && forall k :: 0 <= k < |t.below| ==> t.below[k].Linked()
  }

  /**
   * `applyTransformer`: apply this item's transform, then the rest of the
   * chain; the result is the chain's transforms composed newest first.
   */
  function ApplyTransformer(str: string, transformer: TransformerStackItem?): (r: string)
    requires transformer != null ==> TransformChain(transformer)
    ensures r == if transformer == null then str else Compose(transformer.transforms, str)
    decreases if transformer == null then 0 else |transformer.below| + 1
  {
    if transformer == null then str
    else
      var next := transformer.next;
      assert next != null ==> next == transformer.below[0] && next.below == transformer.below[1..];
      assert next != null ==> forall k :: 0 <= k < |next.below| ==> next.below[k] == transformer.below[k + 1];
      assert transformer.transforms[1..] == if next == null then [] else next.transforms;
      ApplyTransformer(transformer.transform(str), next)
  }
}
