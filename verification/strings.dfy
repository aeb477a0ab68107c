/**
 * String helpers of the layout engine: the .NET white-space test, `Repeat`,
 * `Join`, `Split(char)`, `RemoveMultipleSpaces`, trimming and padding.
 */
module Strings {

  /** `char.IsWhiteSpace`, which is also the set matched by the regex class `\s`. */
  predicate IsWhiteSpace(c: char) {
    c == ' ' || '\t' <= c <= '\r' || c == '\U{85}' || c == '\U{A0}' || c == '\U{1680}'
    || '\U{2000}' <= c <= '\U{200A}' || c == '\U{2028}' || c == '\U{2029}'
    || c == '\U{202F}' || c == '\U{205F}' || c == '\U{3000}'
  }

  // ---------------------------------------------------------------- Repeat

  /** `n` copies of `text`, one after the other. */
  function Repeated(text: string, n: nat): string {
    if n == 0 then [] else Repeated(text, n - 1) + text
  }

  lemma {:induction false} RepeatedLength(text: string, n: nat)
    ensures |Repeated(text, n)| == n * |text|
  {
    if n > 0 {
      RepeatedLength(text, n - 1);
      assert n * |text| == (n - 1) * |text| + |text|;
    }
  }

  /** One more copy in front is one more copy. */
  lemma {:induction false} RepeatedPrepend(text: string, n: nat)
    ensures text + Repeated(text, n) == Repeated(text, n + 1)
  {
    if n > 0 {
      RepeatedPrepend(text, n - 1);
      assert text + Repeated(text, n) == text + Repeated(text, n - 1) + text;
    }
  }

  lemma MulAwayFromZero(d: int, len: int)
    requires len > 0
    ensures d == 0 || d * len >= len || d * len <= -len
  {
    if d >= 1 { MulAtLeast(d, len); } else if d <= -1 { MulAtLeast(-d, len); }
  }

  lemma MulAtLeast(d: int, len: int)
    requires d >= 1 && len > 0
    ensures d * len >= len
  {
  }

  lemma ModOffset(q: int, m: int, len: int)
    requires 0 <= m < len
    ensures (q * len + m) % len == m
  {
    var x := q * len + m;
    assert x == (x / len) * len + x % len;
    assert (x / len - q) * len == m - x % len;
    MulAwayFromZero(x / len - q, len);
  }

  /** Character `i` of a repetition is character `i mod |text|` of the text. */
  lemma {:induction false} RepeatedAt(text: string, n: nat, i: nat)
    requires i < |Repeated(text, n)|
    ensures |text| > 0 && Repeated(text, n)[i] == text[i % |text|]
  {
    RepeatedLength(text, n);
    RepeatedLength(text, n - 1);
    if i < |Repeated(text, n - 1)| {
      RepeatedAt(text, n - 1, i);
    } else {
      ModOffset(n - 1, i - (n - 1) * |text|, |text|);
    }
  }

  lemma MulStep(i: nat, count: nat, len: nat)
    requires i < count
    ensures (i + 1) * len == i * len + len <= count * len
  {
    assert count * len == (count - (i + 1)) * len + (i + 1) * len;
  }

  /**
   * `StringExtensions.Repeat`: allocates |text|*n characters and copies the text
   * into consecutive slices. A negative count is only harmless for an empty text
   * (the allocation size is then 0); otherwise .NET throws.
   */
  method Repeat(text: string, n: int) returns (r: string)
    requires n >= 0 || text == []
    ensures r == Repeated(text, if n < 0 then 0 else n)
  {
    var count := if n < 0 then 0 else n;
    var len := |text|;
    var span := new char[len * count];
    var i, offset := 0, 0;
    while i < count
      invariant 0 <= i <= count
      invariant offset == i * len <= span.Length
      invariant span[..offset] == Repeated(text, i)
    {
      MulStep(i, count, len);
      ghost var done := span[..offset];
      forall k | 0 <= k < len {
        span[offset + k] := text[k];
      }
      assert span[..offset + len] == done + text;
      i, offset := i + 1, offset + len;
    }
    assert span[..] == span[..offset];
    r := span[..];
  }

  // ---------------------------------------------------------------- Join and Split

  /** `string.Join(sep, parts)`: the separator goes only between neighbours. */
  function Join(parts: seq<string>, sep: string): string {
    if |parts| == 0 then []
    else if |parts| == 1 then parts[0]
    else parts[0] + sep + Join(parts[1..], sep)
  }

  /** Joining a concatenation puts exactly one separator at the seam. */
  lemma {:induction false} JoinAppend(a: seq<string>, b: seq<string>, sep: string)
    requires |a| > 0 && |b| > 0
    ensures Join(a + b, sep) == Join(a, sep) + sep + Join(b, sep)
  {
    if |a| > 1 {
      assert (a + b)[1..] == a[1..] + b;
      JoinAppend(a[1..], b, sep);
    }
  }

  /** `s.Split(c)`: every separator ends a field, empty fields are kept. */
  function Split(s: string, c: char): (r: seq<string>)
    ensures |r| >= 1
    decreases |s|
  {
    if s == [] then [[]]
    else if s[0] == c then [[]] + Split(s[1..], c)
    else
      var rest := Split(s[1..], c);
      [[s[0]] + rest[0]] + rest[1..]
  }

  /** No piece `Split` gives holds the separator. */
  lemma {:induction false} SplitPieces(s: string, c: char)
    ensures forall k :: 0 <= k < |Split(s, c)| ==> c !in Split(s, c)[k]
    decreases |s|
  {
    if s != [] {
      SplitPieces(s[1..], c);
      var rest := Split(s[1..], c);
      var r := Split(s, c);
      if s[0] != c {
        assert c !in rest[0];
        assert r[0] == [s[0]] + rest[0];
        forall k | 0 <= k < |r| ensures c !in r[k] {
          if k == 0 {
            assert forall i :: 0 <= i < |r[0]| ==> r[0][i] == s[0] || r[0][i] == rest[0][i - 1];
          } else {
            assert r[k] == rest[k];
          }
        }
      } else {
        assert forall k :: 1 <= k < |r| ==> r[k] == rest[k - 1];
      }
    }
  }

  /** Splitting and re-joining on the same character gives the input back. */
  lemma {:induction false} JoinSplit(s: string, c: char)
    ensures Join(Split(s, c), [c]) == s
  {
    if s != [] {
      JoinSplit(s[1..], c);
      var rest := Split(s[1..], c);
      if s[0] == c {
        assert Split(s, c) == [[]] + rest;
      } else if |rest| == 1 {
        assert Join(Split(s, c), [c]) == [s[0]] + rest[0];
      } else {
        assert Split(s, c)[1..] == rest[1..];
        assert Join(Split(s, c), [c]) == [s[0]] + rest[0] + [c] + Join(rest[1..], [c]);
      }
    }
  }

  /** Joining fields free of the separator and splitting again gives the fields back. */
  lemma {:induction false} SplitJoin(parts: seq<string>, c: char)
    requires |parts| >= 1
    requires forall k :: 0 <= k < |parts| ==> c !in parts[k]
    ensures Split(Join(parts, [c]), c) == parts
  {
    if |parts| == 1 {
      SplitField(parts[0], [], c);
      assert parts[0] + [] == parts[0];
    } else {
      var tail := Join(parts[1..], [c]);
      SplitJoin(parts[1..], c);
      SplitField(parts[0], [c] + tail, c);
      assert Join(parts, [c]) == parts[0] + ([c] + tail);
      assert ([c] + tail)[0] == c && ([c] + tail)[1..] == tail;
      assert Split([c] + tail, c) == [[]] + parts[1..];
      assert parts[0] + Split([c] + tail, c)[0] == parts[0];
      assert parts == [parts[0]] + parts[1..];
    }
  }

  /** A field free of `c` glues onto the first field of what follows it. */
  lemma {:induction false} SplitField(field: string, rest: string, c: char)
    requires c !in field
    ensures Split(field + rest, c) == [field + Split(rest, c)[0]] + Split(rest, c)[1..]
    decreases |field|
  {
    if field != [] {
      var t := field[1..] + rest;
      assert field[0] in field;
      assert (field + rest)[0] == field[0] && (field + rest)[1..] == t;
      SplitField(field[1..], rest, c);
      assert Split(t, c)[0] == field[1..] + Split(rest, c)[0];
      assert Split(t, c)[1..] == Split(rest, c)[1..];
      assert [field[0]] + (field[1..] + Split(rest, c)[0]) == field + Split(rest, c)[0];
    } else {
      assert field + rest == rest && field + Split(rest, c)[0] == Split(rest, c)[0];
    }
  }

  // ---------------------------------------------------------------- Trim, collapse, pad

  /** The length of the leading white-space run. */
  function LeadingWhiteSpace(s: string): (k: nat)
    ensures k <= |s| && (k == |s| || !IsWhiteSpace(s[k]))
    ensures forall j :: 0 <= j < k ==> IsWhiteSpace(s[j])
  {
    if s != [] && IsWhiteSpace(s[0]) then 1 + LeadingWhiteSpace(s[1..]) else 0
  }

  /** Where the trailing white-space run starts. */
  function TrailingWhiteSpace(s: string): (k: nat)
    ensures k <= |s| && (k == 0 || !IsWhiteSpace(s[k - 1]))
    ensures forall j :: k <= j < |s| ==> IsWhiteSpace(s[j])
  {
    if s != [] && IsWhiteSpace(s[|s| - 1]) then TrailingWhiteSpace(s[..|s| - 1]) else |s|
  }

  /** `TrimStart()`: drops the leading white space. */
  function TrimStart(s: string): string {
    s[LeadingWhiteSpace(s)..]
  }

  /** `TrimEnd()`: drops the trailing white space. */
  function TrimEnd(s: string): string {
    s[..TrailingWhiteSpace(s)]
  }

  /** `Trim()`: drops white space at both ends. */
  function Trim(s: string): string {
    TrimEnd(TrimStart(s))
  }

  /** The length of the leading run of `c`. */
  function LeadingRun(s: string, c: char): (k: nat)
    ensures k <= |s| && (k == |s| || s[k] != c)
    ensures forall j :: 0 <= j < k ==> s[j] == c
  {
    if s != [] && s[0] == c then 1 + LeadingRun(s[1..], c) else 0
  }

  /** Where the trailing run of `c` starts. */
  function TrailingRun(s: string, c: char): (k: nat)
    ensures k <= |s| && (k == 0 || s[k - 1] != c)
    ensures forall j :: k <= j < |s| ==> s[j] == c
  {
    if s != [] && s[|s| - 1] == c then TrailingRun(s[..|s| - 1], c) else |s|
  }

  /** `Trim(c)`: drops every `c` at both ends. */
  function TrimChar(s: string, c: char): string {
    var t := s[LeadingRun(s, c)..];
    t[..TrailingRun(t, c)]
  }

  /** `Regex.Replace(s, @"\s+", " ")`: every maximal white-space run becomes one space. */
  function Collapse(s: string): (r: string)
    ensures forall i :: 0 <= i < |r| && IsWhiteSpace(r[i]) ==> r[i] == ' '
    ensures forall i :: 0 <= i < |r| - 1 && IsWhiteSpace(r[i]) ==> !IsWhiteSpace(r[i + 1])
    ensures s != [] && !IsWhiteSpace(s[0]) ==> r != [] && r[0] == s[0]
    decreases |s|
  {
    if s == [] then []
    else if IsWhiteSpace(s[0]) then [' '] + Collapse(TrimStart(s))
    else [s[0]] + Collapse(s[1..])
  }

  /** `RemoveMultipleSpaces`: collapse every white-space run to one space, then trim. */
  function RemoveMultipleSpaces(s: string): (r: string)
    ensures r == [] || (!IsWhiteSpace(r[0]) && !IsWhiteSpace(r[|r| - 1]))
    ensures forall i :: 0 <= i < |r| && IsWhiteSpace(r[i]) ==> r[i] == ' '
    ensures forall i :: 0 <= i < |r| - 1 ==> !(r[i] == ' ' && r[i + 1] == ' ')
  {
    var c := Collapse(s);
    var a := LeadingWhiteSpace(c);
    var b := TrailingWhiteSpace(c[a..]);
    assert forall i :: 0 <= i < b ==> c[a..][..b][i] == c[a + i];
    Trim(c)
  }

  /** `TrimEnd(c)`: drops every `c` at the end. */
  function TrimEndChar(s: string, c: char): string {
    s[..TrailingRun(s, c)]
  }

  /** The non-white-space characters of a text, in order. */
  function Visible(s: string): string {
    if s == [] then []
    else if IsWhiteSpace(s[0]) then Visible(s[1..])
    else [s[0]] + Visible(s[1..])
  }

  lemma {:induction false} VisibleAppend(a: string, b: string)
    ensures Visible(a + b) == Visible(a) + Visible(b)
  {
    if a != [] {
      assert (a + b)[0] == a[0] && (a + b)[1..] == a[1..] + b;
      VisibleAppend(a[1..], b);
      if !IsWhiteSpace(a[0]) {
        assert Visible(a + b) == [a[0]] + Visible(a[1..] + b);
      }
    } else {
      assert a + b == b;
    }
  }

  /** A run of white space has no visible characters. */
  lemma {:induction false} VisibleBlank(s: string)
    requires forall j :: 0 <= j < |s| ==> IsWhiteSpace(s[j])
    ensures Visible(s) == []
  {
    if s != [] { VisibleBlank(s[1..]); }
  }

  lemma VisibleTrimStart(s: string)
    ensures Visible(TrimStart(s)) == Visible(s)
  {
    var k := LeadingWhiteSpace(s);
    assert s == s[..k] + s[k..];
    VisibleAppend(s[..k], s[k..]);
    VisibleBlank(s[..k]);
  }

  lemma VisibleTrimEnd(s: string)
    ensures Visible(TrimEnd(s)) == Visible(s)
  {
    var k := TrailingWhiteSpace(s);
    assert s == s[..k] + s[k..];
    VisibleAppend(s[..k], s[k..]);
    VisibleBlank(s[k..]);
  }

  lemma {:induction false} VisibleCollapse(s: string)
    ensures Visible(Collapse(s)) == Visible(s)
    decreases |s|
  {
    if s != [] {
      if IsWhiteSpace(s[0]) {
        VisibleCollapse(TrimStart(s));
        VisibleTrimStart(s);
        VisibleAppend([' '], Collapse(TrimStart(s)));
      } else {
        VisibleCollapse(s[1..]);
        VisibleAppend([s[0]], Collapse(s[1..]));
      }
    }
  }

  /** `RemoveMultipleSpaces` keeps every visible character, in order, and no other. */
  lemma VisibleRemoveMultipleSpaces(s: string)
    ensures Visible(RemoveMultipleSpaces(s)) == Visible(s)
  {
    VisibleCollapse(s);
    VisibleTrimStart(Collapse(s));
    VisibleTrimEnd(TrimStart(Collapse(s)));
  }

  /** `new string(' ', n)`. */
  function Spaces(n: nat): (r: string)
    ensures |r| == n && forall k :: 0 <= k < n ==> r[k] == ' '
  {
    if n == 0 then [] else [' '] + Spaces(n - 1)
  }

  /** `s.PadLeft(width)`: spaces in front up to the width. */
  function PadLeft(s: string, width: int): (r: string)
    ensures |r| == if width > |s| then width else |s|
    ensures r[|r| - |s|..] == s && forall k :: 0 <= k < |r| - |s| ==> r[k] == ' '
  {
    if width > |s| then Spaces(width - |s|) + s else s
  }

  /** `s.PadRight(width)`: spaces after up to the width. */
  function PadRight(s: string, width: int): (r: string)
    ensures |r| == if width > |s| then width else |s|
    ensures r[..|s|] == s && forall k :: |s| <= k < |r| ==> r[k] == ' '
  {
    if width > |s| then s + Spaces(width - |s|) else s
  }
}
