# HtmlToText layout engine in Dafny

This project models the text-layout engine of UnDotNet.HtmlToText, the part
that turns a sequence of open/close/add calls into word-wrapped plain text.
The HTML parser and the DOM walk that drive those calls are outside the model.
The modules follow the source files:

- `Wrappers` (wrappers.dfy): `Option` (a C# `null`-able result) and `Outcome`
  (a result, or the exception the C# code throws).
- `Strings` (strings.dfy): `StringExtensions.Repeat`, `Join`, `string.Split(char)`,
  `RemoveMultipleSpaces`, trimming and padding.
- `Numbering` (numbering.dfy): `Utils.NumberToLetterSequence`, in bijective
  base N with C# truncating division, and `Utils.NumberToRoman`, each with
  its reading back.
- `Dictionaries` (dictionaries.dfy): `DictionaryExtensions.MergeValues`, where
  the last value wins.
- `InlineText` (inline_text.dfy): `InlineTextBuilder`. A class holds the
  completed lines, the words of the line in progress and its character
  budget. Every method is specified by a function on a `Layout` value.
  Those functions carry the properties: no character is lost, the budget
  stays consistent, and rendering behaves as stated. `SplitLongWord` is
  given twice, as written and corrected (see Findings).
- `Whitespace` (whitespace.dfy): `WhitespaceProcessor`. It tokenises text
  against the configured white-space set, in both modes (collapse, or keep
  '\n'). It feeds the tokens to an inline builder, and provides
  `TestContainsWords`, `CountNewlinesNoWords` and `CharactersToCodes`.
- `StackItems` (stack_items.dfy): the scope classes (block, list, list item,
  table, row, cell), linked through `next`, and the chain of word transforms.
- `BlockText` (block_text.dfy): `BlockTextBuilder`, the open/close protocol
  over the stack of scopes. It covers the merge rule of `AddText`, list item
  prefixes and hanging indents, the word-transform stack, and every
  exception the protocol throws, as a `Status`.
- `TablePrinter` (table_printer.dfy): `TablePrinterUtils.TableToString`.
  The layout pass places spanning cells at vacant slots, the grid is
  transposed in place, and the render pass writes padded output lines.
  Each method is specified by a function on lists.
- `TableProperties` (table_properties.dfy): what placing and drawing a cell
  does, when the render pass cannot fail, and the trailing-empty-rows failure
  with its correction.
- `TableExamples` (table_examples.dfy): a table from the source's tests,
  worked through the model.
- `TextFormatters` (text_formatters.dfy): the DOM-free helpers of
  `TextFormatters`:
  - link brackets and path rebasing;
  - class/id splitting;
  - ordered-list numbering and its prefix counter;
  - list line breaks and prefix widths;
  - the blockquote transform;
  - the horizontal-rule length.

In three places the code does less than its names or doc comments suggest. The model follows the code as written:

- `GetRoot` takes one step (`Next ?? this`). It does not walk the chain to
  its end.
- Not every nesting violation raises an error:
  - `closeList` drops a scope that is not a list without a word;
  - `closeTableRow` and `closeTableCell` return silently when the scope below
    has the wrong kind;
  - `closeListItem` and `closeTable` fail with the null dereference of their
    unchecked casts.
- `TestContainsWords` is documented as "any non-whitespace characters"
  (src/WhitespaceProcessor.cs:193-198). In preserve-newlines mode, however,
  `TestContainsWords(" \n")` is false while
  `TestContainsWords("\n")` is true. This is because the .NET `$` matches
  before a final '\n'.

## Model

| member | source | states |
|---|---|---|
| Strings.RepeatedLength | src/StringExtensions.cs:27-37 | n copies of a text are exactly n·\|text\| characters long |
| Strings.RepeatedPrepend | src/StringExtensions.cs:27-37 | one more copy in front of n copies is n+1 copies |
| Strings.RepeatedAt | src/StringExtensions.cs:27-37 | character i of the repetition is character i mod \|text\| of the text |
| Strings.Repeat | src/StringExtensions.cs:27-37 | the slice-copying loop returns exactly n copies of the text (none for a negative count, which only an empty text survives) |
| Strings.JoinAppend | src/StringExtensions.cs:12-24 | joining two non-empty lists one after the other puts exactly one separator at the seam |
| Strings.Split | src/TablePrinter.cs:140 | `Split` always gives at least one field |
| Strings.SplitPieces | src/TablePrinter.cs:140 | no field `Split` gives contains the separator |
| Strings.JoinSplit | src/TextFormatters.cs:185-188 | joining the fields of a split with the same character gives the text back |
| Strings.SplitJoin | src/StringExtensions.cs:12-19 | splitting the join of separator-free fields gives the fields back |
| Strings.LeadingWhiteSpace | src/StringExtensions.cs:7-10 | the leading run has only white space and is followed by a non-white-space character or the end |
| Strings.TrailingWhiteSpace | src/StringExtensions.cs:7-10 | the trailing run has only white space and is preceded by a non-white-space character or the start |
| Strings.LeadingRun | src/BlockTextBuilder.cs:400 | the leading run of a character holds only it and is maximal |
| Strings.TrailingRun | src/BlockTextBuilder.cs:400 | the trailing run of a character holds only it and is maximal |
| Strings.Collapse | src/StringExtensions.cs:9 | after the white-space runs are replaced, every white-space character left is a space, no two are adjacent, and a visible first character stays first |
| Strings.RemoveMultipleSpaces | src/StringExtensions.cs:7-10 | the result neither starts nor ends with white space, its only white space is ' ', and it has no two adjacent spaces |
| Strings.VisibleAppend | src/StringExtensions.cs:9 | the visible characters of a concatenation are those of its halves, in order |
| Strings.VisibleBlank | src/StringExtensions.cs:7-10 | a white-space run has no visible characters |
| Strings.VisibleTrimStart | src/StringExtensions.cs:9 | trimming the start keeps every visible character |
| Strings.VisibleTrimEnd | src/StringExtensions.cs:9 | trimming the end keeps every visible character |
| Strings.VisibleCollapse | src/StringExtensions.cs:9 | collapsing white-space runs keeps every visible character, in order |
| Strings.VisibleRemoveMultipleSpaces | src/StringExtensions.cs:7-10 | `RemoveMultipleSpaces` keeps exactly the visible characters of its input, in order |
| Strings.Spaces | src/BlockTextBuilder.cs:318 | `new string(' ', n)` is n spaces |
| Strings.PadLeft | src/BlockTextBuilder.cs:320 | the text ends the result, behind spaces, and the result is as long as the larger of the width and the text |
| Strings.PadRight | src/BlockTextBuilder.cs:321 | the text starts the result, followed by spaces, and the result is as long as the larger of the width and the text |
| Numbering.TruncBounds | src/Utils.cs:11-13 | C# `/` and `%` recompose the number, the remainder takes the dividend's sign and is smaller than the base |
| Numbering.LetterDigits | src/Utils.cs:9-14 | the digit loop always gives at least one digit, each strictly between -base and base |
| Numbering.LetterDigitsRange | src/Utils.cs:9-14 | for a positive number every digit lies in 0..base-1 |
| Numbering.LetterRoundTrip | src/Utils.cs:6-23 | read in bijective base N, the digits of a positive number give back the number |
| Numbering.LetterSurjective | src/Utils.cs:6-23 | every non-empty string of proper digits is the encoding of exactly its value, so the encoding is a bijection onto them |
| Numbering.Letters | src/Utils.cs:18-21 | one character per digit |
| Numbering.LetterCodes | src/Utils.cs:20 | one digit per character |
| Numbering.LetterCodesOfLetters | src/Utils.cs:15-22 | reading the characters back as offsets from the base character gives the digits back |
| Numbering.LetterSequenceRoundTrip | src/Utils.cs:6-23 | for a positive number the sequence is non-empty, uses only the N characters from the base character on, and reads back as the number |
| Numbering.LetterSequenceExamples | test/TagsTests.OlTests.cs:126-131 | 1, 26, 27, 702 and 703 become "a", "z", "aa", "zz" and "aaa" |
| Numbering.CollectLetterDigits | src/Utils.cs:8-14 | the do-while loop collects exactly the digits of the number, least significant first |
| Numbering.NumberToLetterSequence | src/Utils.cs:6-23 | the method's result is the letter sequence whose round trip is proved above |
| Numbering.RomanValueAppend | src/Utils.cs:30-36 | the value of a numeral splits where no letter is smaller than the next one |
| Numbering.CopiesValue | src/Utils.cs:34 | k copies of a letter are worth k times the letter |
| Numbering.SymbolValues | src/Utils.cs:25-26 | the I and V tables hold letters worth 10^i and 5·10^i |
| Numbering.FiveThenOnes | src/Utils.cs:34 | V[i] followed by k copies of I[i] is worth five plus k ones |
| Numbering.RomanOnes | src/Utils.cs:33-34 | digits 0-3 are that many copies of I[i] |
| Numbering.RomanLowDigit | src/Utils.cs:33-34 | digits 0-3 at place i are worth the digit times 10^i |
| Numbering.RomanFiveAndOnes | src/Utils.cs:33-34 | digits 5-8 are V[i] followed by the ones, worth five plus that many |
| Numbering.RomanHighDigit | src/Utils.cs:33-34 | digits 5-8 at place i are worth the digit times 10^i |
| Numbering.RomanSubtractiveDigit | src/Utils.cs:35 | 4 (I[i]V[i]) and 9 (I[i]I[i+1]) at place i are worth the digit times 10^i |
| Numbering.RomanDigitValue | src/Utils.cs:33-35 | every digit's numeral is worth the digit times its place value and ends in a letter worth at least it |
| Numbering.RomanFromValue | src/Utils.cs:30-36 | the numerals of the digits from place i up, joined, are worth the number times 10^i |
| Numbering.RomanFromSingle | src/Utils.cs:30-36 | a single digit's numeral is worth it at its place |
| Numbering.RomanFromJoin | src/Utils.cs:30-36 | the higher digits' numeral followed by the units digit's is worth the whole number |
| Numbering.PiecesJoin | src/Utils.cs:36 | a numeral worth the tens followed by a piece worth the units is worth the number |
| Numbering.NumberToRomanRoundTrip | src/Utils.cs:28-37 | for 0..3999, reading the numeral back in the usual subtractive way gives the number |
| Numbering.RomanExamples | test/TagsTests.OlTests.cs:66-78 | 8 and 9 become "VIII" and "IX", lower-cased "viii" and "ix" |
| Numbering.RomanUnits | src/Utils.cs:30-36 | a number below ten is its units digit's numeral |
| Numbering.RomanEight | src/Utils.cs:34 | 8 is "VIII" |
| Numbering.RomanNine | src/Utils.cs:35 | 9 is "IX" |
| Numbering.ToLowerAscii | src/TextFormatters.cs:115 | `ToLower` keeps the length, lowers the capitals and keeps every other character |
| Numbering.DecimalDigits | src/TextFormatters.cs:120 | `int.ToString()` of a natural number: decimal digits only, with no leading zero |
| Numbering.DecimalRoundTrip | src/TextFormatters.cs:120 | the decimal digits of a number read back as the number |
| Dictionaries.Dictionary.Empty | src/DictionaryExtensions.cs:8 | a new dictionary has no entries |
| Dictionaries.HasKeyAt | src/DictionaryExtensions.cs:9-16 | a key is among the new dictionaries exactly when one of them holds it |
| Dictionaries.MergedKeys | src/DictionaryExtensions.cs:9-17 | the merged keys are the source keys together with the keys of every new dictionary |
| Dictionaries.MergedHasKey | src/DictionaryExtensions.cs:9-17 | the same, with the recursive key test |
| Dictionaries.MergedValue | src/DictionaryExtensions.cs:13-14 | each merged value comes from the last new dictionary holding the key, else from the source |
| Dictionaries.Overlay | src/DictionaryExtensions.cs:11-15 | the remove-and-add loop overlays one dictionary onto the target, whose entries win nowhere |
| Dictionaries.MergeValues | src/DictionaryExtensions.cs:6-19 | a null source becomes a fresh empty dictionary, the source itself is returned, and its entries become the merge of all new dictionaries in order |
| InlineText.GluedAppend | src/InlineTextBuilder.cs:220 | gluing one more part appends it |
| InlineText.LastIndexBefore | src/InlineTextBuilder.cs:188 | `firstLine.LastIndexOf(c)` is -1 or a position before the width that holds `c` |
| InlineText.LastIndexBeforeLast | src/InlineTextBuilder.cs:188 | no later position before the width holds `c`, and -1 means `c` does not occur there |
| InlineText.LastIndexBeforePrefix | src/InlineTextBuilder.cs:185-188 | searching the cut-off first line finds the same position as searching the word |
| InlineText.CutAt | src/InlineTextBuilder.cs:188 | a cut position is before the width and holds the wrap character being tried |
| InlineText.SplitParts | src/InlineTextBuilder.cs:179-222 | the corrected split always gives at least one part |
| InlineText.SplitPartsGlue | src/InlineTextBuilder.cs:179-222 | the parts concatenate back into the word |
| InlineText.CutGlue | src/InlineTextBuilder.cs:189-193 | after a cut at a wrap character, the parts still concatenate back into the word |
| InlineText.UncutGlue | src/InlineTextBuilder.cs:194-217 | without a cut, the parts still concatenate back into the word |
| InlineText.ProperCons | src/InlineTextBuilder.cs:192 | a proper cut in front of properly cut parts keeps all cuts proper |
| InlineText.SplitPartsCuts | src/InlineTextBuilder.cs:179-222 | every part but the last is non-empty, at most the width long, and ends in a wrap character or is a forced cut of exactly the width |
| InlineText.CutCuts | src/InlineTextBuilder.cs:189-193 | the same after a cut at a wrap character |
| InlineText.UncutCuts | src/InlineTextBuilder.cs:194-217 | the same when no wrap character is found |
| InlineText.SplitAsWrittenAgrees | src/InlineTextBuilder.cs:179-222 | where the code as written does not throw, it gives the corrected parts; it throws only with forced cuts and wrap characters |
| InlineText.CutAgrees | src/InlineTextBuilder.cs:189-193 | the same, after a cut at a wrap character |
| InlineText.UncutAgrees | src/InlineTextBuilder.cs:194-217 | the same, when no wrap character is found |
| InlineText.SplitLongWordOverrun | src/InlineTextBuilder.cs:188 | width 3, wrap characters "/" and forced cuts: the code as written throws on "aaaaaaa", where the corrected split gives "aaa", "aaa", "a" |
| InlineText.SplitPartsForced | src/InlineTextBuilder.cs:203-210 | with forced cuts every part fits the width |
| InlineText.SplitPartsPriority | src/InlineTextBuilder.cs:188-193 | the first wrap character wins: when it occurs within the width, the first part ends at its last occurrence there |
| InlineText.SplitPartsWhole | src/InlineTextBuilder.cs:212-216 | without forced cuts, a word holding no wrap character is returned whole |
| InlineText.CutStep | src/InlineTextBuilder.cs:189-193 | one round that cuts after a wrap character keeps the parts-to-come unchanged |
| InlineText.NextCharStep | src/InlineTextBuilder.cs:196-200 | a round that finds no cut moves on to the next wrap character |
| InlineText.ForcedStep | src/InlineTextBuilder.cs:203-210 | with no wrap character left and forced cuts, a round cuts at the width |
| InlineText.GiveUpStep | src/InlineTextBuilder.cs:212-216 | with no wrap character left and no forced cuts, the rest is kept whole |
| InlineText.FitsStep | src/InlineTextBuilder.cs:183-220 | a rest that fits the width is the last part |
| InlineText.SplitRound | src/InlineTextBuilder.cs:183-219 | one round of the loop keeps parts plus the split of the rest unchanged, and the rest shrinks or the wrap index grows |
| InlineText.LineCostRendered | src/InlineTextBuilder.cs:52-59 | the cost charged for a line's words equals the length of those words joined by single spaces |
| InlineText.EmptyLines | src/InlineTextBuilder.cs:127-133 | `StartNewLine(n)` adds n-1 empty lines (none for n ≤ 1) |
| InlineText.LineTexts | src/InlineTextBuilder.cs:163-166 | each completed line renders as its words joined by single spaces |
| InlineText.GluedLinesBlank | src/InlineTextBuilder.cs:127-133 | empty lines add no characters |
| InlineText.CharsNewLine | src/InlineTextBuilder.cs:124-136 | starting lines neither loses nor adds a character |
| InlineText.CharsAppend | src/InlineTextBuilder.cs:57 | appending a word adds exactly its characters |
| InlineText.CharsPlaceParts | src/InlineTextBuilder.cs:70-77 | placing the parts of a cut word adds exactly their characters |
| InlineText.CharsPushed | src/InlineTextBuilder.cs:46-79 | `PushWord` adds exactly the characters of the word, whether or not it was cut |
| InlineText.CharsPlaceCut | src/InlineTextBuilder.cs:65-77 | the split branch adds exactly the characters of the parts |
| InlineText.CharsPopped | src/InlineTextBuilder.cs:87-96 | `PopWord` gives null exactly on an empty line in progress, and otherwise takes away exactly the characters it returns |
| InlineText.CharsConcatenated | src/InlineTextBuilder.cs:105-117 | `ConcatWord` adds exactly the characters of the word, and the break-opportunity flag is cleared only when the word is pushed on its own |
| InlineText.BudgetPlaceParts | src/InlineTextBuilder.cs:70-77 | placing cut parts keeps the budget equal to the width minus the line's cost |
| InlineText.BudgetAppend | src/InlineTextBuilder.cs:57-58 | appending a word charges exactly its cost |
| InlineText.BudgetPushed | src/InlineTextBuilder.cs:46-79 | `PushWord` keeps the budget equal to the width minus the cost of the line in progress |
| InlineText.BudgetPlaceCut | src/InlineTextBuilder.cs:65-77 | the split branch keeps the budget consistent |
| InlineText.BudgetPopped | src/InlineTextBuilder.cs:87-96 | `PopWord` refunds exactly what the word cost |
| InlineText.BudgetConcatenated | src/InlineTextBuilder.cs:105-117 | `ConcatWord` keeps the budget consistent |
| InlineText.PopAfterPush | src/InlineTextBuilder.cs:46-96 | a word that fitted (or was pushed without wrapping), popped again, comes back and leaves words and budget as they were |
| InlineText.Singles | src/InlineTextBuilder.cs:72-77 | each later part becomes a line of one word |
| InlineText.NewLineOne | src/InlineTextBuilder.cs:124-136 | one line break completes exactly the line in progress |
| InlineText.PlacePartsLines | src/InlineTextBuilder.cs:72-77 | every part but the last ends up on a line of its own, and the last stays in progress |
| InlineText.PlaceCutLines | src/InlineTextBuilder.cs:65-77 | the first part starts a new line unless the line in progress is empty, and each later part starts its own line |
| InlineText.PushedCut | src/InlineTextBuilder.cs:61-78 | a word that does not fit is cut by the corrected split and placed as above |
| InlineText.RenderAppend | src/InlineTextBuilder.cs:55-59 | a word that fits adds a single space and the word to the text, or only the word on an empty line |
| InlineText.RenderClose | src/InlineTextBuilder.cs:124-136 | completing the line in progress adds one '\n' to the text |
| InlineText.RenderNewLine | src/InlineTextBuilder.cs:124-136 | `StartNewLine(n)` adds n line breaks to the text (one when n < 1) |
| InlineText.RenderBlankLines | src/InlineTextBuilder.cs:129-132 | each empty line adds one '\n' |
| InlineText.RenderEmpty | src/InlineTextBuilder.cs:143-169 | the text is empty exactly when there are no completed lines and the line in progress holds at most an empty word |
| InlineText.InlineTextBuilder.constructor | src/InlineTextBuilder.cs:28-38 | the width is the explicit one, else the wordwrap, else unlimited; the budget starts at the width; missing wrap characters and force flag become "" and false; the builder starts empty |
| InlineText.InlineTextBuilder.StartNewLine | src/InlineTextBuilder.cs:124-136 | the line in progress and n-1 empty lines are completed and the budget is reset; the flags are unchanged |
| InlineText.InlineTextBuilder.PopWord | src/InlineTextBuilder.cs:87-96 | the result and new state are those of `Popped`, whose characters and budget are proved above |
| InlineText.InlineTextBuilder.SplitLongWord | src/InlineTextBuilder.cs:179-222 | the loop returns the corrected split, whose glue-back, cut and priority properties are proved above |
| InlineText.InlineTextBuilder.PushWord | src/InlineTextBuilder.cs:46-79 | the new state is `Pushed` of the old one, which keeps every character and the budget; the flags are unchanged |
| InlineText.InlineTextBuilder.PlaceWords | src/InlineTextBuilder.cs:66-77 | the split branch places the parts as `PlaceCut` says |
| InlineText.InlineTextBuilder.ConcatWord | src/InlineTextBuilder.cs:105-117 | the new state and flag are `Concatenated` of the old ones, which keeps every character and the budget |
| InlineText.InlineTextBuilder.IsEmpty | src/InlineTextBuilder.cs:143-146 | no completed line and no word on the line in progress, and then the builder renders as the empty text |
| InlineText.InlineTextBuilder.Clear | src/InlineTextBuilder.cs:148-153 | no lines, no words, a full budget; the flags are unchanged |
| InlineText.InlineTextBuilder.ToString | src/InlineTextBuilder.cs:160-169 | each line's words joined by single spaces, the lines and the line in progress joined by '\n' |
| Whitespace.Without | src/WhitespaceProcessor.cs:24 | no removed character remains |
| Whitespace.WithoutSet | src/WhitespaceProcessor.cs:23-25 | in preserve-newlines mode the white-space set is the configured one without '\n' |
| Whitespace.DigitRoundTrip | src/WhitespaceProcessor.cs:238 | a hexadecimal digit reads back as its value |
| Whitespace.HexRoundTrip | src/WhitespaceProcessor.cs:238 | `ToString("x4")` reads back as the number |
| Whitespace.HexLength | src/WhitespaceProcessor.cs:238 | a number below 16^4 takes exactly four digits |
| Whitespace.CodesLength | src/WhitespaceProcessor.cs:233-241 | the codes are six characters per input character |
| Whitespace.CodesRoundTrip | src/WhitespaceProcessor.cs:233-241 | the `\uXXXX` groups read back as the input's code points |
| Whitespace.CharactersToCodes | src/WhitespaceProcessor.cs:233-241 | the loop appends exactly each character's code, in order |
| Whitespace.CharactersToCodesExample | test/HtmlToTextUtilsTests.cs:11 | " \t" becomes ` \u0009` |
| Whitespace.HexExamples | test/HtmlToTextUtilsTests.cs:11 | 32 and 9 in four hexadecimal digits are "0020" and "0009" |
| Whitespace.RunLength | src/WhitespaceProcessor.cs:42-86 | a token is a maximal run of word characters |
| Whitespace.TokensShape | src/WhitespaceProcessor.cs:42-86 | every token is a lone '\n' (only with preserved newlines) or a non-empty run of word characters |
| Whitespace.TokensGlue | src/WhitespaceProcessor.cs:42-86 | the word tokens glue back into exactly the word characters of the text |
| Whitespace.TokensEmpty | src/WhitespaceProcessor.cs:42-86 | there is no token exactly when the text has no word character (and no '\n' when newlines are kept) |
| Whitespace.ContainsWordsTokens | src/WhitespaceProcessor.cs:199-205 | when '\n' is white space, the text contains words exactly when it has a token |
| Whitespace.ContainsWordsNewline | src/WhitespaceProcessor.cs:199-205 | with newlines kept, "\n" contains words but " \n" does not, though both hold one '\n' token |
| Whitespace.NewlineTokens | src/WhitespaceProcessor.cs:215-231 | with newlines kept, a word-less text has exactly its newlines as tokens, and a text with a word has a word token |
| Whitespace.AddTokensChars | src/WhitespaceProcessor.cs:50-112 | feeding tokens adds exactly the characters of the transformed word tokens, in order |
| Whitespace.AddTokensBudget | src/WhitespaceProcessor.cs:50-112 | feeding tokens keeps the builder's budget consistent |
| Whitespace.ShrinkWrapChars | src/WhitespaceProcessor.cs:40-115 | without a transform, the builder gains exactly the word characters of the text |
| Whitespace.AddTokensStep | src/WhitespaceProcessor.cs:51-79 | one round of a feeding loop: the first token added, every later one pushed |
| Whitespace.KeptLiteral | src/WhitespaceProcessor.cs:133-167 | the characters a literal keeps are the text without its newlines |
| Whitespace.LiteralGlue | src/WhitespaceProcessor.cs:133-167 | the literal's runs glue back into the text without its newlines, and non-empty text has a run |
| Whitespace.WhitespaceProcessor.constructor | src/WhitespaceProcessor.cs:21-25 | in preserve-newlines mode '\n' is removed from the white-space characters and from the set every test uses |
| Whitespace.WhitespaceProcessor.CountNewlinesNoWords | src/WhitespaceProcessor.cs:215-231 | the loop returns the number of '\n', or 0 as soon as a word character occurs |
| Whitespace.WhitespaceProcessor.AddMatch | src/WhitespaceProcessor.cs:53-79 | a kept '\n' starts a line; a word is pushed, or glued onto the previous word when it is the first |
| Whitespace.WhitespaceProcessor.ShrinkWrapAdd | src/WhitespaceProcessor.cs:40-115 | empty text changes nothing; otherwise every token is fed in (the first pushed after a stashed space or leading white space, else glued), and the stashed space becomes "was stashed and no token" or "ends in white space" |
| Whitespace.WhitespaceProcessor.FeedTokens | src/WhitespaceProcessor.cs:51-112 | the loop leaves the builder as feeding all tokens in turn does |
| Whitespace.WhitespaceProcessor.AddLiteral | src/WhitespaceProcessor.cs:133-167 | every '\n' starts a line, every run between newlines is one untrimmed word (the first glued on unless a space was stashed), and non-empty text clears the stashed space |
| StackItems.StackItem.GetRoot | src/StackItems.cs:29-32 | the scope below, or the item itself at the bottom: one step only |
| StackItems.StackItem.Block | src/StackItems.cs:42-51 | empty raw text, no stashed breaks, the given leading breaks, an empty builder of the given width, flags copied from the parent (false without one) |
| StackItems.StackItem.List | src/StackItems.cs:61-67 | a block that also records prefix width, alignment and row spacing |
| StackItems.StackItem.ListItem | src/StackItems.cs:74-78 | a block that also records its prefix |
| StackItems.StackItem.Table | src/StackItems.cs:85-91 | no text, no rows, flags copied from the parent |
| StackItems.StackItem.TableRow | src/StackItems.cs:97-103 | no text, no cells, flags copied from the parent |
| StackItems.StackItem.TableCell | src/StackItems.cs:114-122 | text of its own, no leading breaks, wrapped at the column width (0 falls back to the global width) |
| StackItems.ComposeLast | src/BlockTextBuilder.cs:477-480 | the last transform of a chain is applied last |
| StackItems.TransformerStackItem.constructor | src/StackItems.cs:136-140 | the new transform is linked in front of the chain pushed before it |
| StackItems.TransformerStackItem.GetRoot | src/StackItems.cs:131-134 | `Next ?? this`: one step |
| StackItems.ApplyTransformer | src/BlockTextBuilder.cs:477-480 | the chain's transforms applied newest first |
| BlockText.NewlinesBlank | src/BlockTextBuilder.cs:465-467 | the inserted line breaks are white space |
| BlockText.VisibleWhiteSpace | src/BlockTextBuilder.cs:465 | a blank parent holds no visible character |
| BlockText.VisibleGap | src/BlockTextBuilder.cs:467 | the line breaks between parent and child add no visible character |
| BlockText.MergeVisible | src/BlockTextBuilder.cs:456-475 | the merge rule loses and invents no visible character: the parent's come first, then the child's |
| BlockText.MergeSiblings | src/BlockTextBuilder.cs:456-475 | two children folded in turn into a non-blank parent are separated by the larger of the two counts meeting there, never by their sum |
| BlockText.IndentedLines | src/BlockTextBuilder.cs:318-322 | after `Replace("\n", "\n" + pad)` the lines are the original ones, all but the first behind the pad |
| BlockText.ListItemLines | src/BlockTextBuilder.cs:313-329 | a list item's first line is its padded prefix and its first line of text; every later line is indented by the prefix width |
| BlockText.TextRendered | src/BlockTextBuilder.cs:445-454 | the emptiness shortcut of `GetText` changes nothing: the raw text followed by what the builder renders |
| BlockText.WordsNewlines | src/WhitespaceProcessor.cs:56-58 | '\n' tokens carry no words |
| BlockText.InlinedChars | src/BlockTextBuilder.cs:131-167 | inline text is never lost or invented: appended raw in pre scopes, dropped only when empty or word-less with stashed breaks, otherwise its transformed words enter the builder in order |
| BlockText.LiteralChars | src/BlockTextBuilder.cs:177-196 | outside pre scopes a literal enters the builder whole, except its newlines, which start lines |
| BlockText.BlockTextBuilder.constructor | src/BlockTextBuilder.cs:26-33 | a root block with one leading break and the configured width, no transforms |
| BlockText.BlockTextBuilder.PushWordTransform | src/BlockTextBuilder.cs:43-46 | the new transform goes in front of the chain |
| BlockText.BlockTextBuilder.PopWordTransform | src/BlockTextBuilder.cs:53-59 | null on an empty chain, which stays empty; otherwise the newest transform, and the chain is as it was before that push |
| BlockText.BlockTextBuilder.CombinedWordTransformer | src/BlockTextBuilder.cs:71-78 | none exactly when there is no chain and no encoder; otherwise the chain newest-first, then the encoder |
| BlockText.BlockTextBuilder.StartNoWrap | src/BlockTextBuilder.cs:61-64 | the top scope becomes no-wrap |
| BlockText.BlockTextBuilder.StopNoWrap | src/BlockTextBuilder.cs:66-69 | the top scope stops being no-wrap |
| BlockText.BlockTextBuilder.GetText | src/BlockTextBuilder.cs:445-454 | only text scopes give text, their raw text and rendered builder; anything else throws |
| BlockText.BlockTextBuilder.AddText | src/BlockTextBuilder.cs:456-475 | on a text scope: text and leading breaks merged by the max rule, builder cleared, trailing breaks stashed; anything else throws and changes nothing |
| BlockText.BlockTextBuilder.AddTextOnTop | src/BlockTextBuilder.cs:456-475 | the same on the top scope, keeping the stack well-formed |
| BlockText.BlockTextBuilder.AddLineBreak | src/BlockTextBuilder.cs:90-104 | '\n' appended in pre scopes, a new line otherwise; non-text scopes are untouched |
| BlockText.BlockTextBuilder.AddInline | src/BlockTextBuilder.cs:131-167 | on a text scope the state becomes `Inlined` of the old state (whose character lemma is above), under the scope's wrapping and transforms; other scopes are untouched |
| BlockText.BlockTextBuilder.InlineInto | src/BlockTextBuilder.cs:134-166 | `addInline` on a text scope with the chosen transform |
| BlockText.BlockTextBuilder.FeedInline | src/BlockTextBuilder.cs:156-166 | the stash becomes new lines, the text is shrink-wrapped in, the stash is cleared |
| BlockText.BlockTextBuilder.AddLiteral | src/BlockTextBuilder.cs:177-196 | on a text scope the state becomes `Literal` of the old state; other scopes are untouched |
| BlockText.BlockTextBuilder.LiteralInto | src/BlockTextBuilder.cs:180-195 | `addLiteral` on a text scope |
| BlockText.BlockTextBuilder.AddWordBreakOpportunity | src/BlockTextBuilder.cs:109-115 | a text scope's builder gets the break opportunity; other scopes are untouched |
| BlockText.BlockTextBuilder.Push | src/BlockTextBuilder.cs:217 | a new scope goes on top |
| BlockText.BlockTextBuilder.Pop | src/BlockTextBuilder.cs:80-85 | the top scope comes off and the one below becomes the top |
| BlockText.BlockTextBuilder.OpenBlock | src/BlockTextBuilder.cs:213-224 | on a text scope, a block max(20, width − reserved) wide goes on top, pre if asked or inherited; otherwise nothing |
| BlockText.BlockTextBuilder.CloseBlock | src/BlockTextBuilder.cs:241-250 | the top comes off; a non-text scope throws; its text, transformed if asked, is folded into the scope below with max(stash, trailing) breaks after it |
| BlockText.BlockTextBuilder.FoldBlock | src/BlockTextBuilder.cs:248-249 | the popped block's text folded into the new top |
| BlockText.BlockTextBuilder.OpenList | src/BlockTextBuilder.cs:272-286 | a list as wide as the text scope goes on top; any other scope throws |
| BlockText.BlockTextBuilder.OpenListItem | src/BlockTextBuilder.cs:297-308 | on a list, an item max(20, width − max(\|prefix\|, list max)) wide with the list's row spacing goes on top; anything else throws |
| BlockText.BlockTextBuilder.CloseListItem | src/BlockTextBuilder.cs:313-329 | the item's padded prefix and indented text are folded into its list with max(stash, row spacing) after it; a non-item throws |
| BlockText.BlockTextBuilder.FoldListItem | src/BlockTextBuilder.cs:316-328 | the popped item's text folded into its list |
| BlockText.BlockTextBuilder.CloseList | src/BlockTextBuilder.cs:340-348 | a list's text is folded into the scope below; a non-list is dropped silently |
| BlockText.BlockTextBuilder.FoldList | src/BlockTextBuilder.cs:343-347 | the popped list's text folded into the new top |
| BlockText.BlockTextBuilder.OpenTable | src/BlockTextBuilder.cs:353-356 | an empty table goes on top of whatever is there |
| BlockText.BlockTextBuilder.OpenTableRow | src/BlockTextBuilder.cs:361-368 | on a table, an empty row goes on top; anything else throws |
| BlockText.BlockTextBuilder.OpenTableCell | src/BlockTextBuilder.cs:379-386 | on a row, a cell of the given width goes on top; anything else throws |
| BlockText.BlockTextBuilder.CloseTableCell | src/BlockTextBuilder.cs:397-403 | the cell's text, trimmed of '\n' at both ends, is appended with its spans to the row below; a non-text scope throws |
| BlockText.BlockTextBuilder.FileCell | src/BlockTextBuilder.cs:400-402 | the popped cell filed with the row below, or dropped |
| BlockText.BlockTextBuilder.AddCell | src/BlockTextBuilder.cs:402 | the row gains exactly one cell at its end |
| BlockText.BlockTextBuilder.CloseTableRow | src/BlockTextBuilder.cs:408-413 | a row's cells become one more row of the table below; otherwise it is dropped |
| BlockText.BlockTextBuilder.CloseTable | src/BlockTextBuilder.cs:430-438 | the table's rows, rendered by `tableToString`, are folded into the scope below; a non-table throws |
| BlockText.BlockTextBuilder.ToString | src/BlockTextBuilder.cs:440-443 | the text of the scope one level down, or of the top when alone |
| TablePrinter.Lines | src/TablePrinter.cs:140 | a cell has at least one line |
| TablePrinter.Nulls | src/TablePrinter.cs:57-60 | n nulls |
| TablePrinter.Padded | src/TablePrinter.cs:57-60 | a list padded with nulls keeps its entries |
| TablePrinter.AddNulls | src/TablePrinter.cs:57-60 | the padding loop makes the index exist and changes nothing before it |
| TablePrinter.WithRow | src/TablePrinter.cs:22-29 | `GetRow` adds a missing row empty and changes no slot |
| TablePrinter.FirstVacant | src/TablePrinter.cs:31-38 | the least index at or after x that is past the end or empty |
| TablePrinter.FindFirstVacantIndex | src/TablePrinter.cs:31-38 | the loop returns exactly that index |
| TablePrinter.PutRow | src/TablePrinter.cs:92-102 | one row with the colspan slots given to the cell, padded as needed |
| TablePrinter.Put | src/TablePrinter.cs:87-104 | every slot of the span rectangle names the cell, every other slot is as before |
| TablePrinter.PutCellIntoLayout | src/TablePrinter.cs:87-104 | the loops leave the layout `Put` describes |
| TablePrinter.PutRowNothing | src/TablePrinter.cs:92 | a zero colspan leaves the row alone |
| TablePrinter.PutNothing | src/TablePrinter.cs:89 | a zero rowspan leaves the grid alone |
| TablePrinter.Extended | src/TablePrinter.cs:106-113 | the offsets grow so the index exists, keeping old entries, each new one one more than the one before |
| TablePrinter.ExtendedStep | src/TablePrinter.cs:110 | each added entry is the previous plus one (0 first) |
| TablePrinter.ExtendedTwice | src/TablePrinter.cs:106-113 | growing twice is growing to the larger index |
| TablePrinter.ExtendedGrows | src/TablePrinter.cs:108-111 | each recursive growth step appends one more than the entry before it |
| TablePrinter.GetOrInitOffset | src/TablePrinter.cs:106-113 | the recursive growth returns the extended offsets and the entry at the index |
| TablePrinter.Updated | src/TablePrinter.cs:115-121 | the entry at base+span becomes the larger of itself and the entry at base plus the value; no entry ever decreases |
| TablePrinter.UpdateOffset | src/TablePrinter.cs:115-121 | the method leaves exactly those offsets |
| TablePrinter.Transposed | src/TablePrinter.cs:46-85 | inside the square each slot holds its mirror, outside it nothing changes |
| TablePrinter.SweptStart | src/TablePrinter.cs:48 | before the sweep the grid is as given |
| TablePrinter.SweptNewRow | src/TablePrinter.cs:50 | adding row i is what the sweep expects there |
| TablePrinter.SweptNextRow | src/TablePrinter.cs:48-51 | a finished row starts the next one |
| TablePrinter.SweptRowI | src/TablePrinter.cs:55-82 | row i after the pair (i, j) is swapped |
| TablePrinter.SweptRowJ | src/TablePrinter.cs:63-82 | row j after the pair (i, j) is swapped |
| TablePrinter.SweptOtherRows | src/TablePrinter.cs:51-83 | other rows are untouched by the pair |
| TablePrinter.SweptSwap | src/TablePrinter.cs:51-83 | one pair swapped is one more step of the sweep |
| TablePrinter.SwapPair | src/TablePrinter.cs:55-82 | both rows padded, then the two slots exchanged |
| TablePrinter.TransposeInPlace | src/TablePrinter.cs:46-85 | the nested loops leave exactly the transposed grid |
| TablePrinter.SwapRow | src/TablePrinter.cs:51-83 | the inner loop swaps row i with every row above it |
| TablePrinter.PlaceCells | src/TablePrinter.cs:135-143 | placing a row's cells keeps every slot naming a cell, keeps offsets non-negative, and only grows the grid |
| TablePrinter.PlaceCell | src/TablePrinter.cs:137-142 | the same for one cell |
| TablePrinter.PlaceRows | src/TablePrinter.cs:130-145 | the layout pass keeps every slot naming a cell and offsets non-negative |
| TablePrinter.LayoutRows | src/TablePrinter.cs:130-145 | the loop gives the layout pass's result |
| TablePrinter.LayoutRow | src/TablePrinter.cs:132-144 | the loop over one row's cells |
| TablePrinter.LayoutCell | src/TablePrinter.cs:137-142 | one cell placed |
| TablePrinter.WriteAt | src/TablePrinter.cs:181-195 | output line k padded to the column and the text appended; missing lines added |
| TablePrinter.WrittenOthers | src/TablePrinter.cs:181-195 | every other output line is as before, null when new |
| TablePrinter.Drawn | src/TablePrinter.cs:177-198 | after j lines of a cell, line i of it is appended to output line top+i and nothing else changes |
| TablePrinter.DrawnNone | src/TablePrinter.cs:177 | no line drawn leaves the output alone |
| TablePrinter.DrawnStep | src/TablePrinter.cs:179-195 | writing one more line is drawing one more line |
| TablePrinter.WidestBounds | src/TablePrinter.cs:197 | the width found is at least every line's length and is one of them (or the start) |
| TablePrinter.RowOffset | src/TablePrinter.cs:207 | `rowOffsets[y]` throws exactly when the offsets do not reach y, unless read extended |
| TablePrinter.WalkSlot | src/TablePrinter.cs:170-219 | each step of the walk moves further down |
| TablePrinter.Texts | src/TablePrinter.cs:222 | null lines joined as "" |
| TablePrinter.TransposedRefers | src/TablePrinter.cs:160 | transposing keeps every slot naming a cell |
| TablePrinter.DrawCell | src/TablePrinter.cs:177-198 | the inner loop draws every line of the cell and finds the widest |
| TablePrinter.DrawStep | src/TablePrinter.cs:179-197 | one line written, the widest updated |
| TablePrinter.DrawLine | src/TablePrinter.cs:180-195 | one line written at the column's offset |
| TablePrinter.RenderColumn | src/TablePrinter.cs:166-220 | the walk down one column |
| TablePrinter.RenderCell | src/TablePrinter.cs:175-201 | a cell drawn, its column offset raised, and the cell marked rendered |
| TablePrinter.RenderSlot | src/TablePrinter.cs:170-219 | one slot of the walk |
| TablePrinter.RenderFilled | src/TablePrinter.cs:171-204 | a filled slot: drawn once, then its rowspan skipped |
| TablePrinter.RenderBlank | src/TablePrinter.cs:205-219 | an empty slot: its row's first line exists, "" when null |
| TablePrinter.TableToString | src/TablePrinter.cs:123-223 | the method gives the table text: layout, transposition, render, join |
| TableProperties.CellPlaced | src/TablePrinter.cs:137-142 | a placed cell sits at the first vacant column from the cursor, fills its span rectangle, moves the cursor just past it, and the row below it starts at least its line count plus spacing lower |
| TableProperties.CellLineRendered | src/TablePrinter.cs:179-195 | rendering appends the cell's line k to output line top+k, padded to the column offset |
| TableProperties.DrawnWrites | src/TablePrinter.cs:179-195 | once drawn, every line of the cell is on its output line |
| TableProperties.CellWidthRendered | src/TablePrinter.cs:197-200 | the next column starts past every line of the cell plus the spacing |
| TableProperties.CellRendered | src/TablePrinter.cs:173-201 | lines placed, column offset raised, cell marked rendered |
| TableProperties.ExtendedRowOffset | src/TablePrinter.cs:106-113 | a row offset read as extended never fails |
| TableProperties.ExtendedColumnSucceeds | src/TablePrinter.cs:168-220 | with extended offsets the walk down a column never fails |
| TableProperties.ExtendedColumnsSucceed | src/TablePrinter.cs:164-221 | with extended offsets the render pass never fails |
| TableProperties.SlotAgrees | src/TablePrinter.cs:170-219 | where a step succeeds as written, the corrected step gives the same result |
| TableProperties.ColumnAgrees | src/TablePrinter.cs:168-220 | where a column walk succeeds as written, the corrected one gives the same canvas |
| TableProperties.ColumnsAgree | src/TablePrinter.cs:164-221 | where the render pass succeeds as written, the corrected one gives the same canvas |
| TableProperties.ColumnSucceeds | src/TablePrinter.cs:168-220 | when the offsets reach every row, the column walk never fails as written |
| TableProperties.ColumnsSucceed | src/TablePrinter.cs:164-221 | when the offsets reach every row, the render pass never fails as written |
| TableProperties.PlaceRowsCovers | src/TablePrinter.cs:130-145 | from any row on, a successful layout pass leaves a grid row for every table row, because `GetRow` adds each one |
| TableProperties.LaidOut | src/TablePrinter.cs:130-145 | a successful layout pass leaves well-formed slots, non-negative offsets, and a grid row for every table row |
| TableProperties.CorrectedTableText | src/TablePrinter.cs:123-223 | with extended offsets the table prints exactly when the layout succeeds, and gives the same text wherever the code as written prints |
| TableProperties.OffsetsReachAllRows | src/TablePrinter.cs:123-223 | the table prints as written whenever the offsets reach every row |
| TableProperties.OneLine | src/TablePrinter.cs:140 | text without '\n' is a single line |
| TableProperties.TrailingLayout | src/TablePrinter.cs:130-145 | a one-cell row and two cell-less rows get offsets for the first two rows only |
| TableProperties.TrailingColumnsShape | src/TablePrinter.cs:160 | its single column holds the cell and two empty slots |
| TableProperties.TrailingCellDrawn | src/TablePrinter.cs:173-201 | its cell drawn on an empty canvas |
| TableProperties.TrailingFirstRows | src/TablePrinter.cs:170-219 | the first two rows are walked either way |
| TableProperties.TrailingThirdRow | src/TablePrinter.cs:207 | the third row has no offset: as written its slot throws, extended it gets a blank line |
| TableProperties.TrailingWalkThrows | src/TablePrinter.cs:164-221 | as written the walk fails |
| TableProperties.TrailingWalkExtended | src/TablePrinter.cs:164-221 | extended the walk gives three lines |
| TableProperties.TrailingEmptyRowsThrow | src/TablePrinter.cs:207 | a table ending in two cell-less rows throws as written |
| TableProperties.TrailingEmptyRowsCorrected | src/TablePrinter.cs:205-222 | corrected it prints "a\n\n" |
| TableProperties.TrailingJoined | src/TablePrinter.cs:222 | the three lines joined |
| TableExamples.PutAtEnd | src/TablePrinter.cs:87-104 | a 1x1 cell just past a row's end is appended to it |
| TableExamples.UpdatedInside | src/TablePrinter.cs:115-121 | raising an existing offset changes it alone |
| TableExamples.UpdatedAppend | src/TablePrinter.cs:115-121 | raising the offset one past the last appends it |
| TableExamples.WriteAtInside | src/TablePrinter.cs:195 | writing to an existing line replaces it |
| TableExamples.WriteAtEnd | src/TablePrinter.cs:181-195 | writing one past the last line adds it |
| TableExamples.RenderedOneLine | src/TablePrinter.cs:173-201 | a one-line cell written at the column offset |
| TableExamples.DrawnOne | src/TablePrinter.cs:177-198 | a single line drawn at the top |
| TableExamples.WalkOn | src/TablePrinter.cs:168-220 | the walk goes on from the next row |
| TableExamples.SlotRendered | src/TablePrinter.cs:170-203 | an unrendered cell is drawn from its row's offset |
| TableExamples.UniformGrid | src/TablePrinter.cs:130-145 | the rows of the example layout |
| TableExamples.Counting | src/TablePrinter.cs:128-142 | one line per row |
| TableExamples.UniformFirstCell | src/TablePrinter.cs:137-142 | the first cell of a row goes in the new, empty row |
| TableExamples.UniformSecondCell | src/TablePrinter.cs:137-142 | the second cell goes after it |
| TableExamples.UniformRows | src/TablePrinter.cs:130-145 | one row of the example laid out |
| TableExamples.UniformLayout | src/TablePrinter.cs:130-145 | the example's layout: each row one line, two columns |
| TableExamples.UniformColumnAt | src/TablePrinter.cs:160 | the transposed example's columns |
| TableExamples.UniformTransposed | src/TablePrinter.cs:160 | the example's grid turned to columns |
| TableExamples.Letter | test/TagsTests.TableTests.cs:80-95 | each row's letter has one character |
| TableExamples.NotInColumn | src/TablePrinter.cs:173 | no cell rendered early |
| TableExamples.LeftLinesLength | src/TablePrinter.cs:181-187 | column 0 walked down y rows has written y lines |
| TableExamples.LeftWritten | src/TablePrinter.cs:195 | column 0's letter on a new output line |
| TableExamples.LeftOffsets | src/TablePrinter.cs:200 | column 1 starts four characters in |
| TableExamples.LeftRendered | src/TablePrinter.cs:173-201 | column 0's cell rendered |
| TableExamples.LeftStep | src/TablePrinter.cs:170-204 | one row of column 0 walked |
| TableExamples.RightLines | src/TablePrinter.cs:164-221 | three output lines while column 1 is walked |
| TableExamples.RightLinesAhead | src/TablePrinter.cs:164-221 | rows not yet walked hold column 0's letter alone |
| TableExamples.LeftDone | src/TablePrinter.cs:164 | column 0 done is where column 1 starts |
| TableExamples.PaddedLetter | src/TablePrinter.cs:195 | a letter padded to column 4 |
| TableExamples.RightWritten | src/TablePrinter.cs:195 | column 1's letter appended at column 4 |
| TableExamples.RightOffsets | src/TablePrinter.cs:200 | the right edge is four characters past column 1 |
| TableExamples.RightRenderedParts | src/TablePrinter.cs:173-201 | the parts of the canvas after one cell of column 1 |
| TableExamples.RightRendered | src/TablePrinter.cs:173-201 | column 1's cell rendered |
| TableExamples.RightStep | src/TablePrinter.cs:170-204 | one row of column 1 walked |
| TableExamples.LeftWalk | src/TablePrinter.cs:168-220 | the walk down column 0 |
| TableExamples.RightWalk | src/TablePrinter.cs:168-220 | the walk down column 1 |
| TableExamples.UniformWalk | src/TablePrinter.cs:164-221 | the walk down both columns |
| TableExamples.UniformLines | test/TagsTests.TableTests.cs:92-95 | the output lines are "a   a", "b   b", "c   c" |
| TableExamples.UniformJoined | test/TagsTests.TableTests.cs:92-95 | joined they are the expected text |
| TableExamples.UniformTable | test/TagsTests.TableTests.cs:77-101 | three rows of two 1x1 cells with column spacing 3 print as "a   a\nb   b\nc   c" |
| TextFormatters.WithBrackets | src/TextFormatters.cs:15-19 | left + text + right, and the text itself when there are no brackets |
| TextFormatters.PathRewrite | src/TextFormatters.cs:22-28 | the path goes through the rewriter when there is one; a result starting with '/' is rebased on the base URL without its trailing slashes; an empty result throws |
| TextFormatters.PathRewriteExample | test/TagsTests.ATests.cs:33-39 | "/test.html" on "https://example.com" becomes "https://example.com/test.html" |
| TextFormatters.Remarked | src/TextFormatters.cs:93-97 | one selector per name |
| TextFormatters.SelectorNamesRoundTrip | src/TextFormatters.cs:85-101 | putting the marker back on the names gives exactly the selectors carrying it, in order |
| TextFormatters.ClassesAndIdsDisjoint | src/TextFormatters.cs:89-99 | no selector is both a class and an id |
| TextFormatters.SplitClassesAndIds | src/TextFormatters.cs:85-101 | '.' selectors go to the classes and '#' selectors to the ids, unmarked and in order; others are dropped |
| TextFormatters.FormatIndexReadsBack | src/TextFormatters.cs:106-122 | for 1..3999 every style's index reads back as the number (lower Roman is upper Roman lower-cased) |
| TextFormatters.OrderedListPrefixes.constructor | src/TextFormatters.cs:349-351 | the counter starts at the start attribute and the style is chosen from the type |
| TextFormatters.OrderedListPrefixes.NextPrefix | src/TextFormatters.cs:352 | " " + index + ". ", and the counter moves on even when the index throws |
| TextFormatters.FormatIndexLetterExamples | test/TagsTests.OlTests.cs:126-131 | type "a": 1 is "a", 27 is "aa" |
| TextFormatters.FormatIndexRomanExamples | test/TagsTests.OlTests.cs:76-78 | type "I": 9 is "IX", 4000 throws |
| TextFormatters.FormatIndexDecimalExample | test/TagsTests.OlTests.cs:40-44 | any other type is decimal |
| TextFormatters.ListPrefix | src/TextFormatters.cs:53 | nested lists drop the prefix's leading white space |
| TextFormatters.ListLineBreaks | src/TextFormatters.cs:39-78 | 1 and 1 for a nested list, else the options or 2 |
| TextFormatters.MaxPrefixLength | src/TextFormatters.cs:43-57 | the longest prefix length, 0 for none |
| TextFormatters.PrefixEach | src/TextFormatters.cs:187 | every line with the prefix in front |
| TextFormatters.DropEach | src/TextFormatters.cs:187 | every line without its first characters |
| TextFormatters.BlockquoteRoundTrip | src/TextFormatters.cs:185-188 | every line of the quoted text is behind "> ", and stripping those gives the text back |
| TextFormatters.ExampleLines | test/TagsTests.BlockquoteTests.cs:32 | the lines of the example |
| TextFormatters.BlockquoteTrimmedExample | test/TagsTests.BlockquoteTests.cs:32-34 | trimmed, the surrounding empty lines disappear |
| TextFormatters.BlockquoteUntrimmedExample | src/TextFormatters.cs:185-188 | untrimmed, a leading empty line becomes "> " |
| TextFormatters.HorizontalLineShape | src/TextFormatters.cs:301-312 | the rule is exactly as many dashes as the length chosen (explicit, else a positive wordwrap, else 40), and without an explicit length it never fails |

## Left out

- The HTML and CSS parsing, the DOM walk, `PickSelector`, the formatter lambdas
  that walk elements, and `Trace` logging: they drive the engine from outside.
  The model exposes the calls they make.
- The .NET regex engine: each character class is set membership over the
  configured white-space characters. The one quirk that matters, `$` before a
  final '\n', is modelled.
- Options and defaults: their values are parameters (`Options`, the
  white-space string, the wordwrap).
- Delegates: word transforms, `encodeCharacters`, `tableToString` and the path
  rewriter are total Dafny functions passed in. A `null` result from
  `tableToString` is not modelled.
- The spanning-cells table test (test/TagsTests.TableTests.cs:333-336) is not
  worked through. Only the uniform 3x2 table is. Spans are covered by the
  general placement lemmas (`TableProperties.CellPlaced`, `TablePrinter.Put`).
- `closeTable` passes 0 and 0 to `tableToString`. The `dataTable` formatter's
  delegate ignores them and uses its own options (row spacing 0, column
  spacing 3 by default). The model passes `tableToString` as a parameter and
  does not model that formatter.
- InlineText.InlineTextBuilder.SplitLongWord, PushWord and ConcatWord follow
  the corrected split, so the builder never throws. The source throws
  IndexOutOfRange at src/InlineTextBuilder.cs:188 when forced cuts and wrap
  characters are both on and a second forced cut is needed. It reaches that
  throw from `PushWord` and `ConcatWord`, so from every `addInline`. Only
  `InlineText.SplitAsWritten` models that throw: `InlineText.SplitAsWrittenAgrees`
  shows where it happens and `InlineText.SplitLongWordOverrun` gives an input
  that triggers it.
- Numbering.ToLowerAscii and TextFormatters.SplitClassesAndIds assume the
  invariant culture. `ToLower` (src/TextFormatters.cs:115) and `StartsWith(".")`
  and `StartsWith("#")` (src/TextFormatters.cs:91, 95) use the current .NET
  culture. Under tr-TR, 'I' lowers to a dotless 'ı', so lower-case Roman
  numerals would differ. ICU comparison also skips ignorable leading code
  points such as U+00AD. The model lowers ASCII capitals only and tests the
  first character.
- Characters are Dafny `char` (Unicode scalar values). UTF-16 surrogates are
  not modelled. `CharactersToCodes` is proved for the UTF-16 range only.
- Unlimited width is the constant 2147483647. Integers are unbounded, so no
  `int` overflow is modelled.
- Cells, rows and dictionaries are values. List aliasing between a table row's
  cell list and the table's rows is not modelled: `closeTableRow` hands over
  the cells as a value. `Lines` and `Rendered` are recomputed or kept in the
  render state instead of being set on shared cell objects.
- Some loops and branches are separate methods so that each proof stays small:
  `FoldBlock`, `FoldList`, `FoldListItem`, `FileCell`, `FeedTokens`, `AddMatch`,
  `SplitRound`, `SwapPair`, `SwapRow`, the `Layout*`, `Draw*` and `Render*`
  methods. The C# code has them inline.
- `TextFormatters.FormatIndex`: `int.Parse` of the start attribute is not
  modelled. The counter starts from an `int`.
- InlineText.InlineTextBuilder.PushWord, ConcatWord and SplitLongWord require
  a width of at least 1. A width of 0 never comes out of the constructor rule.
  A negative width would make `Substring` throw, and that path is not modelled.
- Strings.Repeat requires a non-negative count or an empty text. The .NET
  allocation throws for any other negative count. `TextFormatters.HorizontalLine`
  models that throw as a `Failure`.
- BlockText.BlockTextBuilder.OpenBlock, CloseBlock, OpenList, CloseList,
  AddText and CloseTable require line-break counts of at least 0. Negative
  counts would make `new string('\n', n)` throw.
- BlockText.BlockTextBuilder.OpenTableCell requires `maxColumnWidth` ≥ 0.
- BlockText.BlockTextBuilder.constructor requires the configured width to be
  at least 1.
- TablePrinter.WithRow requires `j ≤ |matrix|`, which every call meets.
  `GetRow` is never asked for a row two past the end.
- Numbering.NumberToRoman (a function) requires 0..3999. Outside that range
  the C# code throws, and `TextFormatters.FormatIndex` models this as a
  `Failure`.

## Findings

| source | as written | input that shows it | evidently intended | confidence | as-written member | corrected member |
|---|---|---|---|---|---|---|
| src/InlineTextBuilder.cs:188 | after a forced cut moves `idx` past the last wrap character, the next round reads `wrapCharacters[idx]` and throws | width 3, wrap characters "/", forced cuts, word "aaaaaaa" | once every wrap character is tried, only forced cuts at the width remain, giving "aaa", "aaa", "a" | not executed | InlineText.SplitLongWordOverrun | InlineText.SplitPartsGlue |
| src/TablePrinter.cs:207 | row offsets exist only up to one past the last row with a cell, and the render pass reads `rowOffsets[y]` for every row | a table of a one-cell row "a" followed by two rows without cells | each cell-less row gets its blank line, giving "a\n\n" | not executed | TableProperties.TrailingEmptyRowsThrow | TableProperties.TrailingEmptyRowsCorrected |
