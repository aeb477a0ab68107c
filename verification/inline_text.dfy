/**
 * `InlineTextBuilder`: the word-wrapping accumulator of one block. Words are
 * pushed onto the line in progress while they fit its character budget; a
 * word that does not fit moves to a new line and, if it is longer than the
 * line width, is cut by `SplitLongWord`.
 */
module InlineText {
  import opened Wrappers
  import Strings

  /** `int.MaxValue`, the width of a builder with no wordwrap. */
  const Unlimited := 0x7FFF_FFFF

  /** The width the constructor picks: the explicit one, else the wordwrap, else unlimited. */
  function LineWidth(maxLineLength: int, wordwrap: Option<int>): int {
    if maxLineLength != 0 then maxLineLength
    else if wordwrap.None? || wordwrap.value == 0 then Unlimited
    else wordwrap.value
  }

  // ---------------------------------------------------------------- word pieces

  /** The pieces of a word put back together. */
  function Glued(parts: seq<string>): string {
    if parts == [] then [] else parts[0] + Glued(parts[1..])
  }

  lemma {:induction false} GluedAppend(parts: seq<string>, part: string)
    ensures Glued(parts + [part]) == Glued(parts) + part
  {
    if parts == [] {
      assert [] + [part] == [part];
      assert Glued([part]) == part + Glued([]);
    } else {
      assert (parts + [part])[1..] == parts[1..] + [part];
      GluedAppend(parts[1..], part);
    }
  }

  /**
   * `firstLine.LastIndexOf(c)` where `firstLine` is the first `n` characters
   * of `s`: the last position of `c` before `n`, or -1.
   */
  function LastIndexBefore(s: string, c: char, n: nat): (i: int)
    requires n <= |s|
    ensures -1 <= i < n
    ensures i >= 0 ==> s[i] == c
  {
    if n == 0 then -1
    else if s[n - 1] == c then n - 1
    else LastIndexBefore(s, c, n - 1)
  }

  /** The position found is the last one, and -1 means the character does not occur. */
  lemma {:induction false} LastIndexBeforeLast(s: string, c: char, n: nat)
    requires n <= |s|
    ensures forall j :: LastIndexBefore(s, c, n) < j < n ==> s[j] != c
    ensures LastIndexBefore(s, c, n) == -1 <==> c !in s[..n]
  {
    if n > 0 && s[n - 1] != c {
      LastIndexBeforeLast(s, c, n - 1);
      assert s[..n] == s[..n - 1] + [s[n - 1]];
    }
  }

  /** Looking only at a prefix that covers the first `n` characters finds the same position. */
  lemma {:induction false} LastIndexBeforePrefix(s: string, c: char, n: nat, m: nat)
    requires n <= m <= |s|
    ensures LastIndexBefore(s[..m], c, n) == LastIndexBefore(s, c, n)
  {
    if n > 0 {
      assert s[..m][n - 1] == s[n - 1];
      LastIndexBeforePrefix(s, c, n - 1, m);
    }
  }

  /**
   * Where a word longer than the width is cut after the wrap character at
   * `idx`: the last position of that character among the first `width`
   * characters, or -1 when it does not occur there or `idx` is past the list.
   */
  function CutAt(word: string, idx: nat, width: int, wrap: string): (at: int)
    requires 1 <= width < |word|
    ensures -1 <= at < width
    ensures at >= 0 ==> idx < |wrap| && word[at] == wrap[idx]
  {
    if idx < |wrap| then LastIndexBefore(word, wrap[idx], width) else -1
  }

  /**
   * Every part but the last is non-empty, at most the width long, and ends in
   * a wrap character or is a forced cut of exactly the width.
   */
  predicate ProperCuts(parts: seq<string>, width: int, wrap: string, force: bool) {
    forall k :: 0 <= k < |parts| - 1 ==>
      1 <= |parts[k]| <= width && (parts[k][|parts[k]| - 1] in wrap || (force && |parts[k]| == width))
  }

  /** Putting a part in front of parts that glue into `tail` glues into the part and `tail`. */
  lemma GluedCons(part: string, parts: seq<string>)
    ensures Glued([part] + parts) == part + Glued(parts)
  {
    assert ([part] + parts)[1..] == parts;
  }

  /**
   * The parts `SplitLongWord` cuts a word into, with the wrap-character
   * lookup fixed: once every wrap character has been tried, no further
   * character is looked up and only a forced cut at the width remains.
   * (The source cuts the first `width` characters off and glues their tail
   * back onto the rest; that is the word from the cut on.) The parts glue
   * back into the word, and every cut is proper.
   */
  function SplitParts(word: string, idx: nat, width: int, wrap: string, force: bool): (parts: seq<string>)
    requires width >= 1
    ensures |parts| >= 1
    decreases |word|, if idx < |wrap| then |wrap| - idx else 0
  {
    if |word| <= width then [word]
    else
      var at := CutAt(word, idx, width, wrap);
      if at > -1 then [word[..at + 1]] + SplitParts(word[at + 1..], idx, width, wrap, force)
      else if idx + 1 < |wrap| then SplitParts(word, idx + 1, width, wrap, force)
      else if force && |word| - width > width then [word[..width]] + SplitParts(word[width..], idx + 1, width, wrap, force)
      else if force then [word[..width], word[width..]]
      else [word]
  }

  /** The parts glue back into the word. */
  lemma {:induction false} SplitPartsGlue(word: string, idx: nat, width: int, wrap: string, force: bool)
    requires width >= 1
    ensures Glued(SplitParts(word, idx, width, wrap, force)) == word
    decreases |word|, if idx < |wrap| then |wrap| - idx else 0, 1
  {
    if |word| <= width {
      GluedCons(word, []);
    } else if CutAt(word, idx, width, wrap) > -1 {
      CutGlue(word, idx, width, wrap, force);
    } else {
      UncutGlue(word, idx, width, wrap, force);
    }
  }

  lemma {:induction false} CutGlue(word: string, idx: nat, width: int, wrap: string, force: bool)
    requires 1 <= width < |word| && CutAt(word, idx, width, wrap) > -1
    ensures Glued(SplitParts(word, idx, width, wrap, force)) == word
    decreases |word|, if idx < |wrap| then |wrap| - idx else 0, 0
  {
    var at := CutAt(word, idx, width, wrap);
    var later := SplitParts(word[at + 1..], idx, width, wrap, force);
    assert SplitParts(word, idx, width, wrap, force) == [word[..at + 1]] + later;
    SplitPartsGlue(word[at + 1..], idx, width, wrap, force);
    GluedCons(word[..at + 1], later);
    assert word[..at + 1] + word[at + 1..] == word;
  }

  lemma {:induction false} UncutGlue(word: string, idx: nat, width: int, wrap: string, force: bool)
    requires 1 <= width < |word| && CutAt(word, idx, width, wrap) == -1
    ensures Glued(SplitParts(word, idx, width, wrap, force)) == word
    decreases |word|, if idx < |wrap| then |wrap| - idx else 0, 0
  {
    if idx + 1 < |wrap| {
      SplitPartsGlue(word, idx + 1, width, wrap, force);
    } else if force && |word| - width > width {
      var later := SplitParts(word[width..], idx + 1, width, wrap, force);
      assert SplitParts(word, idx, width, wrap, force) == [word[..width]] + later;
      SplitPartsGlue(word[width..], idx + 1, width, wrap, force);
      GluedCons(word[..width], later);
      assert word[..width] + word[width..] == word;
    } else if force {
      GluedCons(word[width..], []);
      GluedCons(word[..width], [word[width..]]);
      assert word[..width] + word[width..] == word;
    } else {
      GluedCons(word, []);
    }
  }

  /** A proper cut put in front of properly cut parts keeps every cut proper. */
  lemma ProperCons(part: string, parts: seq<string>, width: int, wrap: string, force: bool)
    requires 1 <= |part| <= width && (part[|part| - 1] in wrap || (force && |part| == width))
    requires ProperCuts(parts, width, wrap, force)
    ensures ProperCuts([part] + parts, width, wrap, force)
  {
    var all := [part] + parts;
    forall k | 1 <= k < |all| - 1
      ensures 1 <= |all[k]| <= width && (all[k][|all[k]| - 1] in wrap || (force && |all[k]| == width))
    {
      assert all[k] == parts[k - 1];
    }
  }

  /** Every cut is proper. */
  lemma {:induction false} SplitPartsCuts(word: string, idx: nat, width: int, wrap: string, force: bool)
    requires width >= 1
    ensures ProperCuts(SplitParts(word, idx, width, wrap, force), width, wrap, force)
    decreases |word|, if idx < |wrap| then |wrap| - idx else 0, 1
  {
    if |word| > width {
      if CutAt(word, idx, width, wrap) > -1 {
        CutCuts(word, idx, width, wrap, force);
      } else {
        UncutCuts(word, idx, width, wrap, force);
      }
    }
  }

  lemma {:induction false} CutCuts(word: string, idx: nat, width: int, wrap: string, force: bool)
    requires 1 <= width < |word| && CutAt(word, idx, width, wrap) > -1
    ensures ProperCuts(SplitParts(word, idx, width, wrap, force), width, wrap, force)
    decreases |word|, if idx < |wrap| then |wrap| - idx else 0, 0
  {
    var at := CutAt(word, idx, width, wrap);
    var later := SplitParts(word[at + 1..], idx, width, wrap, force);
    SplitPartsCuts(word[at + 1..], idx, width, wrap, force);
    assert word[..at + 1][at] == wrap[idx];
    ProperCons(word[..at + 1], later, width, wrap, force);
  }

  lemma {:induction false} UncutCuts(word: string, idx: nat, width: int, wrap: string, force: bool)
    requires 1 <= width < |word| && CutAt(word, idx, width, wrap) == -1
    ensures ProperCuts(SplitParts(word, idx, width, wrap, force), width, wrap, force)
    decreases |word|, if idx < |wrap| then |wrap| - idx else 0, 0
  {
    var parts := SplitParts(word, idx, width, wrap, force);
    if idx + 1 < |wrap| {
      assert parts == SplitParts(word, idx + 1, width, wrap, force);
      SplitPartsCuts(word, idx + 1, width, wrap, force);
    } else if force && |word| - width > width {
      var later := SplitParts(word[width..], idx + 1, width, wrap, force);
      assert parts == [word[..width]] + later;
      SplitPartsCuts(word[width..], idx + 1, width, wrap, force);
      ProperCons(word[..width], later, width, wrap, force);
    } else if force {
      assert parts == [word[..width]] + [word[width..]];
      ProperCons(word[..width], [word[width..]], width, wrap, force);
    } else {
      assert parts == [word];
    }
  }

  /**
   * `SplitLongWord` as written: the wrap character at `idx` is looked up
   * whenever the list is non-empty, which throws once a forced cut has moved
   * `idx` past the end of the list and the rest is still too long.
   */
  function SplitAsWritten(word: string, idx: nat, width: int, wrap: string, force: bool): Outcome<seq<string>>
    requires width >= 1
    decreases |word|, if idx < |wrap| then |wrap| - idx else 0
  {
    if |word| <= width then Success([word])
    else if |wrap| > 0 && idx >= |wrap| then Failure("index out of range")
    else
      var at := CutAt(word, idx, width, wrap);
      if at > -1 then
        match SplitAsWritten(word[at + 1..], idx, width, wrap, force)
        case Success(parts) => Success([word[..at + 1]] + parts)
        case Failure(e) => Failure(e)
      else if idx + 1 < |wrap| then SplitAsWritten(word, idx + 1, width, wrap, force)
      else if force && |word| - width > width then
        match SplitAsWritten(word[width..], idx + 1, width, wrap, force)
        case Success(parts) => Success([word[..width]] + parts)
        case Failure(e) => Failure(e)
      else if force then Success([word[..width], word[width..]])
      else Success([word])
  }

  /** Where the code as written does not throw, it cuts exactly as the fixed version; it throws only with forced cuts and wrap characters. */
  lemma {:induction false} SplitAsWrittenAgrees(word: string, idx: nat, width: int, wrap: string, force: bool)
    requires width >= 1 && (idx < |wrap| || |wrap| == 0 || force)
    ensures SplitAsWritten(word, idx, width, wrap, force).Success? ==>
      SplitAsWritten(word, idx, width, wrap, force).value == SplitParts(word, idx, width, wrap, force)
    ensures SplitAsWritten(word, idx, width, wrap, force).Failure? ==> force && |wrap| > 0
    decreases |word|, if idx < |wrap| then |wrap| - idx else 0, 1
  {
    if |word| > width && !(|wrap| > 0 && idx >= |wrap|) {
      if CutAt(word, idx, width, wrap) > -1 {
        CutAgrees(word, idx, width, wrap, force);
      } else {
        UncutAgrees(word, idx, width, wrap, force);
      }
    }
  }

  lemma {:induction false} CutAgrees(word: string, idx: nat, width: int, wrap: string, force: bool)
    requires 1 <= width < |word| && idx < |wrap| && CutAt(word, idx, width, wrap) > -1
    ensures SplitAsWritten(word, idx, width, wrap, force).Success? ==>
      SplitAsWritten(word, idx, width, wrap, force).value == SplitParts(word, idx, width, wrap, force)
    ensures SplitAsWritten(word, idx, width, wrap, force).Failure? ==> force && |wrap| > 0
    decreases |word|, if idx < |wrap| then |wrap| - idx else 0, 0
  {
    var at := CutAt(word, idx, width, wrap);
    var rest := word[at + 1..];
    SplitAsWrittenAgrees(rest, idx, width, wrap, force);
    assert SplitParts(word, idx, width, wrap, force) == [word[..at + 1]] + SplitParts(rest, idx, width, wrap, force);
    var w := SplitAsWritten(rest, idx, width, wrap, force);
    if w.Success? {
      assert SplitAsWritten(word, idx, width, wrap, force) == Success([word[..at + 1]] + w.value);
    } else {
      assert SplitAsWritten(word, idx, width, wrap, force) == Failure(w.error);
    }
  }

  lemma {:induction false} UncutAgrees(word: string, idx: nat, width: int, wrap: string, force: bool)
    requires 1 <= width < |word| && (idx < |wrap| || |wrap| == 0) && CutAt(word, idx, width, wrap) == -1
    ensures SplitAsWritten(word, idx, width, wrap, force).Success? ==>
      SplitAsWritten(word, idx, width, wrap, force).value == SplitParts(word, idx, width, wrap, force)
    ensures SplitAsWritten(word, idx, width, wrap, force).Failure? ==> force && |wrap| > 0
    decreases |word|, if idx < |wrap| then |wrap| - idx else 0, 0
  {
    if idx + 1 < |wrap| {
      SplitAsWrittenAgrees(word, idx + 1, width, wrap, force);
    } else if force && |word| - width > width {
      SplitAsWrittenAgrees(word[width..], idx + 1, width, wrap, force);
    }
  }

  /**
   * A width of 3, the wrap characters "/" and forced cuts: the second forced
   * cut of "aaaaaaa" throws in the code as written, where the fixed version
   * cuts it into "aaa", "aaa" and "a".
   */
  lemma SplitLongWordOverrun()
    ensures SplitAsWritten("aaaaaaa", 0, 3, "/", true).Failure?
    ensures SplitParts("aaaaaaa", 0, 3, "/", true) == ["aaa", "aaa", "a"]
  {
    var word := "aaaaaaa";
    assert LastIndexBefore(word, '/', 3) == -1;
    assert word[..3] == "aaa" && word[3..] == "aaaa";
    assert LastIndexBefore("aaaa", '/', 3) == -1;
    assert "aaaa"[..3] == "aaa" && "aaaa"[3..] == "a";
    assert SplitParts("aaaa", 1, 3, "/", true) == ["aaa", "a"];
  }

  /** With forced cuts every part fits the width. */
  lemma {:induction false} SplitPartsForced(word: string, idx: nat, width: int, wrap: string)
    requires width >= 1
    ensures forall part <- SplitParts(word, idx, width, wrap, true) :: |part| <= width
    decreases |word|, if idx < |wrap| then |wrap| - idx else 0
  {
    var parts := SplitParts(word, idx, width, wrap, true);
    if |word| > width {
      var at := CutAt(word, idx, width, wrap);
      if at > -1 {
        var later := SplitParts(word[at + 1..], idx, width, wrap, true);
        SplitPartsForced(word[at + 1..], idx, width, wrap);
        assert parts == [word[..at + 1]] + later;
      } else if idx + 1 < |wrap| {
        SplitPartsForced(word, idx + 1, width, wrap);
      } else if |word| - width > width {
        var later := SplitParts(word[width..], idx + 1, width, wrap, true);
        SplitPartsForced(word[width..], idx + 1, width, wrap);
        assert parts == [word[..width]] + later;
      }
    }
  }

  /**
   * The first wrap character takes priority: if it occurs within the width,
   * the first part ends at its last occurrence there.
   */
  lemma SplitPartsPriority(word: string, width: int, wrap: string, force: bool)
    requires width >= 1 && |word| > width && |wrap| > 0 && wrap[0] in word[..width]
    ensures var first := SplitParts(word, 0, width, wrap, force)[0];
      && 1 <= |first| <= width && first == word[..|first|] && first[|first| - 1] == wrap[0]
      && forall j :: |first| <= j < width ==> word[j] != wrap[0]
  {
    LastIndexBeforeLast(word, wrap[0], width);
  }

  /** Without forced cuts, a word holding none of the wrap characters is returned whole. */
  lemma {:induction false} SplitPartsWhole(word: string, idx: nat, width: int, wrap: string)
    requires width >= 1
    requires forall k :: 0 <= k < |wrap| ==> wrap[k] !in word
    ensures SplitParts(word, idx, width, wrap, false) == [word]
    decreases if idx < |wrap| then |wrap| - idx else 0
  {
    if |word| > width && idx < |wrap| {
      LastIndexBeforeLast(word, wrap[idx], width);
      assert forall j :: 0 <= j < width ==> word[..width][j] == word[j];
      if idx + 1 < |wrap| {
        SplitPartsWhole(word, idx + 1, width, wrap);
      }
    }
  }

  /** One round of `SplitLongWord`'s loop that cuts after a wrap character. */
  lemma CutStep(parts: seq<string>, rest: string, idx: nat, width: int, wrap: string, force: bool)
    requires 1 <= width < |rest| && CutAt(rest, idx, width, wrap) > -1
    ensures var at := CutAt(rest, idx, width, wrap);
      && parts + SplitParts(rest, idx, width, wrap, force)
        == parts + [rest[..width][..at + 1]] + SplitParts(rest[..width][at + 1..] + rest[width..], idx, width, wrap, force)
  {
    var at := CutAt(rest, idx, width, wrap);
    assert rest[..width][..at + 1] == rest[..at + 1];
    assert rest[..width][at + 1..] + rest[width..] == rest[at + 1..];
    Associative(parts, [rest[..at + 1]], SplitParts(rest[at + 1..], idx, width, wrap, force));
  }

  /** A round of `SplitLongWord`'s loop that finds no cut while wrap characters remain: try the next one. */
  lemma NextCharStep(parts: seq<string>, rest: string, idx: nat, width: int, wrap: string, force: bool)
    requires 1 <= width < |rest| && CutAt(rest, idx, width, wrap) == -1 && idx + 1 < |wrap|
    ensures parts + SplitParts(rest, idx, width, wrap, force)
         == parts + SplitParts(rest[..width] + rest[width..], idx + 1, width, wrap, force)
  {
    assert rest[..width] + rest[width..] == rest;
  }

  /** A round of `SplitLongWord`'s loop that finds no cut and no wrap character left, with forced cuts: cut at the width. */
  lemma ForcedStep(parts: seq<string>, rest: string, idx: nat, width: int, wrap: string, force: bool)
    requires 1 <= width < |rest| && CutAt(rest, idx, width, wrap) == -1 && idx + 1 >= |wrap| && force
    ensures parts + SplitParts(rest, idx, width, wrap, force)
         == parts + [rest[..width]] + SplitParts(rest[width..], idx + 1, width, wrap, force)
  {
    Associative(parts, [rest[..width]], SplitParts(rest[width..], idx + 1, width, wrap, force));
  }

  /** A round of `SplitLongWord`'s loop that finds no cut and no wrap character left, without forced cuts: give up. */
  lemma GiveUpStep(parts: seq<string>, rest: string, idx: nat, width: int, wrap: string, force: bool)
    requires 1 <= width < |rest| && CutAt(rest, idx, width, wrap) == -1 && idx + 1 >= |wrap| && !force
    ensures parts + SplitParts(rest, idx, width, wrap, force) == parts + [rest[..width] + rest[width..]]
  {
    assert rest[..width] + rest[width..] == rest;
  }

  /** A word that fits is its own last part. */
  lemma FitsStep(parts: seq<string>, rest: string, idx: nat, width: int, wrap: string, force: bool)
    requires width >= 1 && |rest| <= width
    ensures parts + SplitParts(rest, idx, width, wrap, force) == parts + [rest]
  {
  }

  /**
   * One round of `SplitLongWord`'s loop on a rest longer than the width:
   * cut after the last wrap character `idx` within the width, else move to
   * the next wrap character, else cut at the width when forced, else stop
   * and keep the rest whole.
   */
  method SplitRound(parts0: seq<string>, rest0: string, idx0: nat, width: int, wrap: string, force: bool)
      returns (parts: seq<string>, rest: string, idx: nat, stop: bool)
    requires 1 <= width < |rest0|
    ensures stop ==> parts + [rest] == parts0 + SplitParts(rest0, idx0, width, wrap, force)
    ensures !stop ==> parts + SplitParts(rest, idx, width, wrap, force) == parts0 + SplitParts(rest0, idx0, width, wrap, force)
    ensures !stop ==> |rest| < |rest0| || (|rest| == |rest0| && idx0 < idx < |wrap|)
  {
    parts, rest, idx, stop := parts0, rest0, idx0, false;
    var firstLine := rest[..width];
    var remainingChars := rest[width..];
    var splitIndex := -1;
    if idx < |wrap| {
      splitIndex := LastIndexBefore(firstLine, wrap[idx], |firstLine|);
      LastIndexBeforePrefix(rest, wrap[idx], width, width);
    }
    assert splitIndex == CutAt(rest, idx, width, wrap);
    if splitIndex > -1 {
      CutStep(parts, rest, idx, width, wrap, force);
      rest := firstLine[splitIndex + 1..] + remainingChars;
      parts := parts + [firstLine[..splitIndex + 1]];
    } else {
      idx := idx + 1;
      if idx < |wrap| {
        NextCharStep(parts, rest, idx - 1, width, wrap, force);
        rest := firstLine + remainingChars;
      } else if force {
        ForcedStep(parts, rest, idx - 1, width, wrap, force);
        parts := parts + [firstLine];
        rest := remainingChars;
      } else {
        GiveUpStep(parts, rest, idx - 1, width, wrap, force);
        rest := firstLine + remainingChars;
        stop := true;
      }
    }
  }

  // ---------------------------------------------------------------- the builder's state as a value

  /** Completed lines, the words of the line in progress and its remaining budget. */
  datatype Layout = Layout(lines: seq<seq<string>>, words: seq<string>, available: int)

  /** What adding `word` to a line holding `words` costs: its length, plus one for the space. */
  function Cost(words: seq<string>, word: string): int {
    |word| + (if words == [] then 0 else 1)
  }

  /** The cost of a line: the sum of what each of its words cost when added. */
  function LineCost(words: seq<string>): int {
    if words == [] then 0
    else LineCost(words[..|words| - 1]) + Cost(words[..|words| - 1], words[|words| - 1])
  }

  /** The budget left on the line in progress is the width minus what its words cost. */
  predicate Budgeted(layout: Layout, width: int) {
    layout.available == width - LineCost(layout.words)
  }

  /** A line's cost is the length of its words joined by single spaces. */
  lemma {:induction false} LineCostRendered(words: seq<string>)
    ensures LineCost(words) == |Strings.Join(words, " ")|
  {
    if |words| > 1 {
      var front, last := words[..|words| - 1], words[|words| - 1];
      LineCostRendered(front);
      Strings.JoinAppend(front, [last], " ");
      assert front + [last] == words;
    } else if |words| == 1 {
      assert words[..0] == [];
    }
  }

  /** `n - 1` empty lines (none for n <= 1). */
  function EmptyLines(n: int): (r: seq<seq<string>>)
    ensures |r| == if n > 0 then n else 0
    ensures forall k :: 0 <= k < |r| ==> r[k] == []
  {
    if n <= 0 then [] else EmptyLines(n - 1) + [[]]
  }

  /** `StartNewLine(n)`: the line in progress and n-1 empty lines are completed; the budget is reset. */
  function NewLine(layout: Layout, n: int, width: int): Layout {
    Layout(layout.lines + [layout.words] + EmptyLines(n - 1), [], width)
  }

  /** The word is added to the line in progress and its cost charged. */
  function Append(layout: Layout, word: string): Layout {
    Layout(layout.lines, layout.words + [word], layout.available - Cost(layout.words, word))
  }

  /** Each part on a line of its own. */
  function PlaceParts(layout: Layout, parts: seq<string>, width: int): Layout
    decreases |parts|
  {
    if parts == [] then layout
    else PlaceParts(Append(NewLine(layout, 1, width), parts[0]), parts[1..], width)
  }

  /** `PushWord`. */
  /** A line whose budget is used up is completed before a word is pushed, unless wrapping is off. */
  function Started(layout: Layout, noWrap: bool, width: int): Layout {
    if layout.available <= 0 && !noWrap then NewLine(layout, 1, width) else layout
  }

  /** The parts of a cut word: the first on a new line (or the empty line in progress), each later one on its own line. */
  function PlaceCut(start: Layout, parts: seq<string>, width: int): Layout
    requires |parts| >= 1
  {
    PlaceParts(Append(Begun(start, width), parts[0]), parts[1..], width)
  }

  /** The line the first part of a cut word goes on: a new one, unless the line in progress is empty. */
  function Begun(start: Layout, width: int): Layout {
    if start.words != [] then NewLine(start, 1, width) else start
  }

  /** `PushWord`. */
  function Pushed(layout: Layout, word: string, noWrap: bool, width: int, wrap: string, force: bool): Layout
    requires width >= 1
  {
    var start := Started(layout, noWrap, width);
    if Cost(start.words, word) <= start.available || noWrap then Append(start, word)
    else PlaceCut(start, SplitParts(word, 0, width, wrap, force), width)
  }

  /** `PopWord`: the last word of the line in progress, with its cost refunded. */
  function Popped(layout: Layout): (Option<string>, Layout) {
    if layout.words == [] then (None, layout)
    else
      var front, last := layout.words[..|layout.words| - 1], layout.words[|layout.words| - 1];
      (Some(last), Layout(layout.lines, front, layout.available + Cost(front, last)))
  }

  /** `ConcatWord`: the layout and the new word-break-opportunity flag. */
  function Concatenated(layout: Layout, breakOpportunity: bool, word: string, noWrap: bool, width: int, wrap: string, force: bool): (Layout, bool)
    requires width >= 1
  {
    if breakOpportunity && |word| > layout.available then (Pushed(layout, word, noWrap, width, wrap, force), false)
    else
      var (last, rest) := Popped(layout);
      (Pushed(rest, if last.Some? then last.value + word else word, noWrap, width, wrap, force), breakOpportunity)
  }

  /** The completed lines rendered: words joined by single spaces. */
  function LineTexts(lines: seq<seq<string>>): (r: seq<string>)
    ensures |r| == |lines| && forall k :: 0 <= k < |lines| ==> r[k] == Strings.Join(lines[k], " ")
  {
    if lines == [] then [] else LineTexts(lines[..|lines| - 1]) + [Strings.Join(lines[|lines| - 1], " ")]
  }

  /** `ToString`: every line, the one in progress last, joined by '\n'. */
  function Render(layout: Layout): string {
    Strings.Join(LineTexts(layout.lines) + [Strings.Join(layout.words, " ")], "\n")
  }

  /** Every character of every word, in order, with no separators. */
  function Chars(layout: Layout): string {
    GluedLines(layout.lines) + Glued(layout.words)
  }

  function GluedLines(lines: seq<seq<string>>): string {
    if lines == [] then [] else GluedLines(lines[..|lines| - 1]) + Glued(lines[|lines| - 1])
  }

  // ---------------------------------------------------------------- what the operations keep

  lemma {:induction false} GluedLinesBlank(lines: seq<seq<string>>, n: int)
    ensures GluedLines(lines + EmptyLines(n)) == GluedLines(lines)
    decreases n
  {
    if n > 0 {
      GluedLinesBlank(lines, n - 1);
      var longer := lines + EmptyLines(n - 1) + [[]];
      assert lines + EmptyLines(n) == longer;
      assert longer[..|longer| - 1] == lines + EmptyLines(n - 1);
    } else {
      assert lines + EmptyLines(n) == lines;
    }
  }

  /** Starting lines moves words but neither loses nor adds any character. */
  lemma CharsNewLine(layout: Layout, n: int, width: int)
    ensures Chars(NewLine(layout, n, width)) == Chars(layout)
  {
    var closed := layout.lines + [layout.words];
    GluedLinesBlank(closed, n - 1);
    assert closed[..|closed| - 1] == layout.lines;
  }

  lemma CharsAppend(layout: Layout, word: string)
    ensures Chars(Append(layout, word)) == Chars(layout) + word
  {
    GluedAppend(layout.words, word);
  }

  lemma {:induction false} CharsPlaceParts(layout: Layout, parts: seq<string>, width: int)
    ensures Chars(PlaceParts(layout, parts, width)) == Chars(layout) + Glued(parts)
    decreases |parts|
  {
    if parts != [] {
      var next := Append(NewLine(layout, 1, width), parts[0]);
      CharsNewLine(layout, 1, width);
      CharsAppend(NewLine(layout, 1, width), parts[0]);
      CharsPlaceParts(next, parts[1..], width);
    } else {
      assert Chars(layout) + [] == Chars(layout);
    }
  }

  /** `PushWord` adds exactly the characters of the word, whether or not it was cut. */
  lemma CharsPushed(layout: Layout, word: string, noWrap: bool, width: int, wrap: string, force: bool)
    requires width >= 1
    ensures Chars(Pushed(layout, word, noWrap, width, wrap, force)) == Chars(layout) + word
  {
    CharsNewLine(layout, 1, width);
    var start := Started(layout, noWrap, width);
    if Cost(start.words, word) <= start.available || noWrap {
      CharsAppend(start, word);
    } else {
      SplitPartsGlue(word, 0, width, wrap, force);
      CharsPlaceCut(start, SplitParts(word, 0, width, wrap, force), width);
    }
  }

  lemma CharsPlaceCut(start: Layout, parts: seq<string>, width: int)
    requires |parts| >= 1
    ensures Chars(PlaceCut(start, parts, width)) == Chars(start) + Glued(parts)
  {
    CharsNewLine(start, 1, width);
    var first := Append(Begun(start, width), parts[0]);
    CharsAppend(Begun(start, width), parts[0]);
    CharsPlaceParts(first, parts[1..], width);
    Associative(Chars(start), parts[0], Glued(parts[1..]));
  }

  /** Concatenation is associative (stated over opaque operands to keep proofs small). */
  lemma Associative<T>(a: seq<T>, b: seq<T>, c: seq<T>)
    ensures a + b + c == a + (b + c)
  {
  }

  /** `PopWord` returns the characters it takes away. */
  lemma CharsPopped(layout: Layout)
    ensures Popped(layout).0.None? <==> layout.words == []
    ensures Popped(layout).0.None? ==> Popped(layout).1 == layout
    ensures Popped(layout).0.Some? ==> Chars(layout) == Chars(Popped(layout).1) + Popped(layout).0.value
  {
    if layout.words != [] {
      var front, last := layout.words[..|layout.words| - 1], layout.words[|layout.words| - 1];
      GluedAppend(front, last);
      assert front + [last] == layout.words;
    }
  }

  /** `ConcatWord` glues the word onto the text: the characters grow by exactly the word. */
  lemma CharsConcatenated(layout: Layout, breakOpportunity: bool, word: string, noWrap: bool, width: int, wrap: string, force: bool)
    requires width >= 1
    ensures var (after, flag) := Concatenated(layout, breakOpportunity, word, noWrap, width, wrap, force);
      && Chars(after) == Chars(layout) + word
      && (flag <==> breakOpportunity && |word| <= layout.available)
  {
    if breakOpportunity && |word| > layout.available {
      CharsPushed(layout, word, noWrap, width, wrap, force);
    } else {
      var (last, rest) := Popped(layout);
      CharsPopped(layout);
      var glued := if last.Some? then last.value + word else word;
      CharsPushed(rest, glued, noWrap, width, wrap, force);
    }
  }

  lemma {:induction false} BudgetPlaceParts(layout: Layout, parts: seq<string>, width: int)
    requires Budgeted(layout, width)
    ensures Budgeted(PlaceParts(layout, parts, width), width)
    decreases |parts|
  {
    if parts != [] {
      var next := Append(NewLine(layout, 1, width), parts[0]);
      assert [] + [parts[0]] == [parts[0]];
      BudgetPlaceParts(next, parts[1..], width);
    }
  }

  lemma BudgetAppend(layout: Layout, word: string, width: int)
    requires Budgeted(layout, width)
    ensures Budgeted(Append(layout, word), width)
  {
    assert (layout.words + [word])[..|layout.words|] == layout.words;
  }

  /** `PushWord` keeps the budget equal to the width minus the cost of the line in progress. */
  lemma BudgetPushed(layout: Layout, word: string, noWrap: bool, width: int, wrap: string, force: bool)
    requires width >= 1 && Budgeted(layout, width)
    ensures Budgeted(Pushed(layout, word, noWrap, width, wrap, force), width)
  {
    var start := Started(layout, noWrap, width);
    if Cost(start.words, word) <= start.available || noWrap {
      BudgetAppend(start, word, width);
    } else {
      BudgetPlaceCut(start, SplitParts(word, 0, width, wrap, force), width);
    }
  }

  lemma BudgetPlaceCut(start: Layout, parts: seq<string>, width: int)
    requires |parts| >= 1 && Budgeted(start, width)
    ensures Budgeted(PlaceCut(start, parts, width), width)
  {
    BudgetAppend(Begun(start, width), parts[0], width);
    BudgetPlaceParts(Append(Begun(start, width), parts[0]), parts[1..], width);
  }

  /** `PopWord` refunds exactly what the word cost, so the budget stays consistent. */
  lemma BudgetPopped(layout: Layout, width: int)
    requires Budgeted(layout, width)
    ensures Budgeted(Popped(layout).1, width)
  {
  }

  lemma BudgetConcatenated(layout: Layout, breakOpportunity: bool, word: string, noWrap: bool, width: int, wrap: string, force: bool)
    requires width >= 1 && Budgeted(layout, width)
    ensures Budgeted(Concatenated(layout, breakOpportunity, word, noWrap, width, wrap, force).0, width)
  {
    if breakOpportunity && |word| > layout.available {
      BudgetPushed(layout, word, noWrap, width, wrap, force);
    } else {
      var (last, rest) := Popped(layout);
      BudgetPopped(layout, width);
      BudgetPushed(rest, if last.Some? then last.value + word else word, noWrap, width, wrap, force);
    }
  }

  /** A word that fits (or is pushed without wrapping) and is popped again leaves the layout as it was. */
  lemma PopAfterPush(layout: Layout, word: string, noWrap: bool, width: int, wrap: string, force: bool)
    requires width >= 1
    requires noWrap || (layout.available > 0 && Cost(layout.words, word) <= layout.available)
    ensures Popped(Pushed(layout, word, noWrap, width, wrap, force)) == (Some(word), layout)
  {
    assert (layout.words + [word])[..|layout.words|] == layout.words;
  }

  /** Each part as a line of one word. */
  function Singles(parts: seq<string>): (r: seq<seq<string>>)
    ensures |r| == |parts| && forall k :: 0 <= k < |parts| ==> r[k] == [parts[k]]
  {
    if parts == [] then [] else [[parts[0]]] + Singles(parts[1..])
  }

  /** One line break completes exactly the line in progress. */
  lemma NewLineOne(layout: Layout, width: int)
    ensures NewLine(layout, 1, width).lines == layout.lines + [layout.words]
    ensures NewLine(layout, 1, width).words == []
  {
    assert layout.lines + [layout.words] + [] == layout.lines + [layout.words];
  }

  /** The parts after the first each end up on a line of their own; the last stays in progress. */
  lemma {:induction false} PlacePartsLines(layout: Layout, parts: seq<string>, width: int)
    requires |parts| >= 1
    ensures PlaceParts(layout, parts, width).lines == layout.lines + [layout.words] + Singles(parts[..|parts| - 1])
    ensures PlaceParts(layout, parts, width).words == [parts[|parts| - 1]]
    decreases |parts|
  {
    var next := Append(NewLine(layout, 1, width), parts[0]);
    NewLineOne(layout, width);
    assert next.words == [parts[0]];
    var rest := parts[1..];
    if rest == [] {
      assert parts[..|parts| - 1] == [];
      assert next.lines + [] == next.lines;
    } else {
      PlacePartsLines(next, rest, width);
      assert parts[..|parts| - 1][1..] == rest[..|rest| - 1];
      assert Singles(parts[..|parts| - 1]) == [[parts[0]]] + Singles(rest[..|rest| - 1]);
      Associative(layout.lines + [layout.words], [[parts[0]]], Singles(rest[..|rest| - 1]));
    }
  }

  lemma PlaceCutLines(start: Layout, parts: seq<string>, width: int)
    requires |parts| >= 1
    ensures PlaceCut(start, parts, width).lines
      == start.lines + (if start.words != [] then [start.words] else []) + Singles(parts[..|parts| - 1])
    ensures PlaceCut(start, parts, width).words == [parts[|parts| - 1]]
  {
    var first := Append(Begun(start, width), parts[0]);
    NewLineOne(start, width);
    assert first.words == [parts[0]];
    var begunLines := start.lines + (if start.words != [] then [start.words] else []);
    assert first.lines == begunLines by {
      if start.words == [] { assert start.lines + [] == start.lines; }
    }
    var rest := parts[1..];
    if rest == [] {
      assert parts[..|parts| - 1] == [];
      assert begunLines + [] == begunLines;
    } else {
      PlacePartsLines(first, rest, width);
      assert parts[..|parts| - 1][1..] == rest[..|rest| - 1];
      assert Singles(parts[..|parts| - 1]) == [[parts[0]]] + Singles(rest[..|rest| - 1]);
      Associative(begunLines, [[parts[0]]], Singles(rest[..|rest| - 1]));
    }
  }

  /**
   * A word that does not fit is cut: its first part starts a new line (or the
   * empty line in progress) and every later part starts a line of its own.
   */
  lemma PushedCut(layout: Layout, word: string, noWrap: bool, width: int, wrap: string, force: bool)
    requires width >= 1
    requires !noWrap && Cost(layout.words, word) > layout.available > 0
    ensures var parts := SplitParts(word, 0, width, wrap, force);
      var after := Pushed(layout, word, noWrap, width, wrap, force);
      && after.lines == layout.lines + (if layout.words != [] then [layout.words] else []) + Singles(parts[..|parts| - 1])
      && after.words == [parts[|parts| - 1]]
  {
    PlaceCutLines(layout, SplitParts(word, 0, width, wrap, force), width);
  }

  // ---------------------------------------------------------------- what the text looks like

  /** A word that fits is added after a single space, or alone on a line that is empty. */
  lemma RenderAppend(layout: Layout, word: string)
    ensures Render(Append(layout, word)) == Render(layout) + (if layout.words == [] then "" else " ") + word
  {
    var texts := LineTexts(layout.lines);
    var before := Strings.Join(layout.words, " ");
    var after := Strings.Join(layout.words + [word], " ");
    var sep := if layout.words == [] then "" else " ";
    assert after == before + sep + word by {
      if layout.words == [] {
        assert layout.words + [word] == [word];
      } else {
        Strings.JoinAppend(layout.words, [word], " ");
      }
    }
    if texts == [] {
      assert texts + [after] == [after];
      assert texts + [before] == [before];
    } else {
      Strings.JoinAppend(texts, [after], "\n");
      Strings.JoinAppend(texts, [before], "\n");
      Associative(Strings.Join(texts, "\n") + "\n", before + sep, word);
      Associative(Strings.Join(texts, "\n") + "\n", before, sep);
    }
  }

  /** Completing a line, the line in progress included, adds one line break to the text. */
  lemma RenderClose(lines: seq<seq<string>>, words: seq<string>, available: int, width: int)
    ensures Render(Layout(lines + [words], [], width)) == Render(Layout(lines, words, available)) + "\n"
  {
    var texts := LineTexts(lines) + [Strings.Join(words, " ")];
    assert (lines + [words])[..|lines|] == lines;
    assert LineTexts(lines + [words]) == texts;
    Strings.JoinAppend(texts, [[]], "\n");
    assert Strings.Join(texts, "\n") + "\n" + [] == Strings.Join(texts, "\n") + "\n";
  }

  /** `StartNewLine(n)` adds n line breaks to the text (one when n < 1). */
  lemma RenderNewLine(layout: Layout, n: int, width: int)
    ensures Render(NewLine(layout, n, width)) == Render(layout) + Strings.Repeated("\n", if n < 1 then 1 else n)
  {
    var closed := layout.lines + [layout.words];
    RenderClose(layout.lines, layout.words, layout.available, width);
    RenderBlankLines(closed, n - 1, width);
    var k := if n - 1 < 0 then 0 else n - 1;
    Strings.RepeatedPrepend("\n", k);
    Associative(Render(layout), "\n", Strings.Repeated("\n", k));
  }

  lemma {:induction false} RenderBlankLines(lines: seq<seq<string>>, n: int, width: int)
    ensures Render(Layout(lines + EmptyLines(n), [], width)) == Render(Layout(lines, [], width)) + Strings.Repeated("\n", if n < 0 then 0 else n)
    decreases n
  {
    if n > 0 {
      var shorter := lines + EmptyLines(n - 1);
      RenderBlankLines(lines, n - 1, width);
      Associative(lines, EmptyLines(n - 1), [[]]);
      RenderClose(shorter, [], width, width);
    } else {
      assert lines + EmptyLines(n) == lines;
    }
  }

  /** The text is empty exactly when there are no completed lines and the line in progress holds at most an empty word. */
  lemma RenderEmpty(layout: Layout)
    ensures Render(layout) == [] <==> layout.lines == [] && (layout.words == [] || layout.words == [[]])
  {
    var texts := LineTexts(layout.lines);
    var last := Strings.Join(layout.words, " ");
    if texts != [] {
      Strings.JoinAppend(texts, [last], "\n");
    } else {
      assert texts + [last] == [last];
    }
    if |layout.words| > 1 {
      assert |last| >= 1;
    }
  }

  // ---------------------------------------------------------------- the builder

  /**
   * The builder: completed lines, the words of the line in progress and its
   * remaining budget, and the two flags the block builder reads and sets.
   */
  class InlineTextBuilder {
    var lines: seq<seq<string>>
    var nextLineWords: seq<string>
    var nextLineAvailableChars: int
    var wordBreakOpportunity: bool
    var stashedSpace: bool
    const maxLineLength: int
    const wrapCharacters: string
    const forceWrapOnLimit: bool

    /** The lines and the line in progress as a value. */
    function Model(): Layout
      reads this
    {
      Layout(lines, nextLineWords, nextLineAvailableChars)
    }

    /** The budget is the width minus the cost of the line in progress. */
    predicate Valid()
      reads this
    {
      Budgeted(Model(), maxLineLength)
    }

    /** `IsEmpty`: no completed line and no word on the line in progress, so nothing to render. */
    predicate IsEmpty(): (r: bool)
      reads this
      ensures r ==> Render(Model()) == []
    {
      RenderEmpty(Model());
      lines == [] && nextLineWords == []
    }

    /**
     * The width is the explicit one, else the wordwrap option, else unlimited;
     * missing wrap characters are none and a missing force flag is false.
     */
    constructor (wordwrap: Option<int>, wrapChars: Option<string>, forceWrap: Option<bool>, maxLength: int)
      ensures maxLineLength == LineWidth(maxLength, wordwrap)
      ensures wrapCharacters == (if wrapChars.Some? then wrapChars.value else "")
      ensures forceWrapOnLimit == (forceWrap.Some? && forceWrap.value)
      ensures lines == [] && nextLineWords == [] && nextLineAvailableChars == maxLineLength
      ensures !wordBreakOpportunity && !stashedSpace
      ensures Valid() && IsEmpty()
    {
      lines := [];
      nextLineWords := [];
      maxLineLength := LineWidth(maxLength, wordwrap);
      nextLineAvailableChars := LineWidth(maxLength, wordwrap);
      wrapCharacters := if wrapChars.Some? then wrapChars.value else "";
      forceWrapOnLimit := if forceWrap.Some? then forceWrap.value else false;
      stashedSpace := false;
      wordBreakOpportunity := false;
    }

    /** `StartNewLine(n)`: complete the line in progress and n-1 empty lines; reset the budget. */
    method StartNewLine(n: int)
      modifies this
      ensures Model() == NewLine(old(Model()), n, maxLineLength)
      ensures wordBreakOpportunity == old(wordBreakOpportunity) && stashedSpace == old(stashedSpace)
      ensures Valid()
    {
      lines := lines + [nextLineWords];
      ghost var closed := lines;
      if n > 1 {
        var i := 0;
        while i < n - 1
          invariant 0 <= i <= n - 1
          invariant lines == closed + EmptyLines(i)
          invariant nextLineWords == old(nextLineWords)
          invariant wordBreakOpportunity == old(wordBreakOpportunity) && stashedSpace == old(stashedSpace)
        {
          Associative(closed, EmptyLines(i), [[]]);
          lines := lines + [[]];
          i := i + 1;
        }
      } else {
        assert closed + EmptyLines(n - 1) == closed;
      }
      nextLineWords := [];
      nextLineAvailableChars := maxLineLength;
    }

    /** `PopWord`: take the last word off the line in progress and refund its cost. */
    method PopWord() returns (last: Option<string>)
      modifies this
      ensures (last, Model()) == Popped(old(Model()))
      ensures wordBreakOpportunity == old(wordBreakOpportunity) && stashedSpace == old(stashedSpace)
      ensures old(Valid()) ==> Valid()
    {
      if Valid() {
        BudgetPopped(Model(), maxLineLength);
      }
      if |nextLineWords| == 0 {
        return None;
      }
      var lastWord := nextLineWords[|nextLineWords| - 1];
      nextLineWords := nextLineWords[..|nextLineWords| - 1];
      var isLineStart := |nextLineWords| == 0;
      var cost := |lastWord| + (if isLineStart then 0 else 1);
      nextLineAvailableChars := nextLineAvailableChars + cost;
      return Some(lastWord);
    }

    /**
     * `SplitLongWord`, with the wrap character looked up only while `idx` is
     * within the list (the code as written is `SplitAsWritten`).
     */
    method SplitLongWord(word: string) returns (parts: seq<string>)
      requires maxLineLength >= 1
      ensures parts == SplitParts(word, 0, maxLineLength, wrapCharacters, forceWrapOnLimit)
    {
      var width, wrap, force := maxLineLength, wrapCharacters, forceWrapOnLimit;
      parts := [];
      var rest := word;
      var idx: nat := 0;
      while |rest| > width
        invariant parts + SplitParts(rest, idx, width, wrap, force) == SplitParts(word, 0, width, wrap, force)
        decreases |rest|, if idx < |wrap| then |wrap| - idx else 0
      {
        var stop;
        parts, rest, idx, stop := SplitRound(parts, rest, idx, width, wrap, force);
        if stop {
          break;
        }
      }
      if |rest| <= width {
        FitsStep(parts, rest, idx, width, wrap, force);
      }
      parts := parts + [rest];
    }

    /**
     * `PushWord`: a word that fits the budget (or any word when wrapping is
     * off) goes on the line in progress; any other word is cut and its parts
     * start new lines.
     */
    method PushWord(word: string, noWrap: bool)
      requires Valid() && maxLineLength >= 1
      modifies this
      ensures Model() == Pushed(old(Model()), word, noWrap, maxLineLength, wrapCharacters, forceWrapOnLimit)
      ensures wordBreakOpportunity == old(wordBreakOpportunity) && stashedSpace == old(stashedSpace)
      ensures Valid()
    {
      BudgetPushed(Model(), word, noWrap, maxLineLength, wrapCharacters, forceWrapOnLimit);
      if nextLineAvailableChars <= 0 && !noWrap {
        StartNewLine(1);
      }
      ghost var start := Model();
      var isLineStart := |nextLineWords| == 0;
      var cost := |word| + (if isLineStart then 0 else 1);
      if cost <= nextLineAvailableChars || noWrap {
        nextLineWords := nextLineWords + [word];
        nextLineAvailableChars := nextLineAvailableChars - cost;
      } else {
        var words := SplitLongWord(word);
        PlaceWords(words);
      }
    }

    /** The split branch of `PushWord`: the first part on a fresh line, each later part on a line of its own. */
    method PlaceWords(words: seq<string>)
      requires |words| >= 1
      modifies this
      ensures Model() == PlaceCut(old(Model()), words, maxLineLength)
      ensures wordBreakOpportunity == old(wordBreakOpportunity) && stashedSpace == old(stashedSpace)
    {
      ghost var start := Model();
      if |nextLineWords| != 0 {
        StartNewLine(1);
      }
      nextLineWords := nextLineWords + [words[0]];
      nextLineAvailableChars := nextLineAvailableChars - |words[0]|;
      var i := 1;
      while i < |words|
        invariant 1 <= i <= |words|
        invariant PlaceParts(Model(), words[i..], maxLineLength) == PlaceCut(start, words, maxLineLength)
        invariant wordBreakOpportunity == old(wordBreakOpportunity) && stashedSpace == old(stashedSpace)
      {
        assert words[i..][0] == words[i] && words[i..][1..] == words[i + 1..];
        StartNewLine(1);
        nextLineWords := nextLineWords + [words[i]];
        nextLineAvailableChars := nextLineAvailableChars - |words[i]|;
        i := i + 1;
      }
    }

    /**
     * `ConcatWord`: glue the word onto the last word of the line in progress,
     * unless there is a word-break opportunity and the word does not fit, in
     * which case it is pushed on its own and the opportunity is used up.
     */
    method ConcatWord(word: string, noWrap: bool)
      requires Valid() && maxLineLength >= 1
      modifies this
      ensures (Model(), wordBreakOpportunity)
        == Concatenated(old(Model()), old(wordBreakOpportunity), word, noWrap, maxLineLength, wrapCharacters, forceWrapOnLimit)
      ensures stashedSpace == old(stashedSpace)
      ensures Valid()
    {
      if wordBreakOpportunity && |word| > nextLineAvailableChars {
        PushWord(word, noWrap);
        wordBreakOpportunity := false;
      } else {
        var lastWord := PopWord();
        PushWord(if lastWord.Some? then lastWord.value + word else word, noWrap);
      }
    }

    /** `Clear`: no lines, no words, a full budget. */
    method Clear()
      modifies this
      ensures lines == [] && nextLineWords == [] && nextLineAvailableChars == maxLineLength
      ensures wordBreakOpportunity == old(wordBreakOpportunity) && stashedSpace == old(stashedSpace)
      ensures Valid() && IsEmpty()
    {
      lines := [];
      nextLineWords := [];
      nextLineAvailableChars := maxLineLength;
    }

    /** `ToString`: each line's words joined by single spaces, the lines joined by '\n'. */
    method ToString() returns (s: string)
      ensures s == Render(Model())
    {
      var result: seq<string> := [];
      var i := 0;
      while i < |lines|
        invariant 0 <= i <= |lines|
        invariant result == LineTexts(lines[..i])
      {
        assert lines[..i + 1][..i] == lines[..i];
        result := result + [Strings.Join(lines[i], " ")];
        i := i + 1;
      }
      assert lines[..i] == lines;
      result := result + [Strings.Join(nextLineWords, " ")];
      s := Strings.Join(result, "\n");
    }
  }
}
