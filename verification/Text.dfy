/**
  Text as sequences of Unicode scalar values, with the two notions the
  repository's string code relies on: `len()` counts UTF-8 bytes, and `trim()`
  strips characters with the White_Space property from both ends.
 */
module Text {

  datatype Option<+T> = None | Some(value: T)

  /** The White_Space property of the Unicode Character Database. */
  predicate IsWhitespace(c: char) {
    var n := c as int;
    || 9 <= n <= 13
    || n == 0x20 || n == 0x85 || n == 0xA0 || n == 0x1680
    || 0x2000 <= n <= 0x200A
    || n == 0x2028 || n == 0x2029 || n == 0x202F || n == 0x205F || n == 0x3000
  }

  /** `s.trim().is_empty()` */
  predicate Blank(s: string) {
    forall i :: 0 <= i < |s| ==> IsWhitespace(s[i])
  }

  /** Number of UTF-8 bytes of one scalar value. */
  function Width(c: char): (w: nat)
    ensures 1 <= w <= 4
  {
    var n := c as int;
    if n < 0x80 then 1 else if n < 0x800 then 2 else if n < 0x10000 then 3 else 4
  }

  /** `s.len()`: the number of UTF-8 bytes of a string. */
  function Size(s: string): (n: nat)
    ensures n >= |s|
    ensures n == 0 <==> s == ""
  {
    if s == "" then 0 else Width(s[0]) + Size(s[1..])
  }

  lemma {:induction false} SizeConcat(a: string, b: string)
    ensures Size(a + b) == Size(a) + Size(b)
  {
    if a == "" {
      assert a + b == b;
    } else {
      SizeConcat(a[1..], b);
      assert (a + b)[0] == a[0];
      assert (a + b)[1..] == a[1..] + b;
    }
  }

  function TrimStart(s: string): (r: string)
    ensures r != "" ==> !IsWhitespace(r[0])
  {
    if s != "" && IsWhitespace(s[0]) then TrimStart(s[1..]) else s
  }

  function TrimEnd(s: string): (r: string)
    ensures r <= s
    ensures r != "" ==> !IsWhitespace(r[|r| - 1])
  {
    if s != "" && IsWhitespace(s[|s| - 1]) then TrimEnd(s[..|s| - 1]) else s
  }

  /** `s.trim()` */
  function Trim(s: string): (r: string)
    ensures r != "" ==> IsTrimmed(r)
  {
    TrimEnd(TrimStart(s))
  }

  /** A non-empty string with no whitespace at either end. */
  predicate IsTrimmed(s: string) {
    s != "" && !IsWhitespace(s[0]) && !IsWhitespace(s[|s| - 1])
  }

  lemma {:induction false} TrimStartBlank(s: string)
    ensures TrimStart(s) == "" <==> Blank(s)
  {
    if s != "" && IsWhitespace(s[0]) {
      TrimStartBlank(s[1..]);
      assert forall i :: 0 < i < |s| ==> s[i] == s[1..][i - 1];
    }
  }

  lemma {:induction false} TrimEndKeepsFirst(s: string)
    requires s != "" && !IsWhitespace(s[0])
    ensures TrimEnd(s) != ""
  {
    if IsWhitespace(s[|s| - 1]) {
      TrimEndKeepsFirst(s[..|s| - 1]);
    }
  }

  /** Trimming leaves nothing exactly of a blank string. */
  lemma TrimIsEmptyExactlyWhen(s: string)
    ensures Trim(s) == "" <==> Blank(s)
  {
    TrimStartBlank(s);
    if TrimStart(s) != "" {
      TrimEndKeepsFirst(TrimStart(s));
    }
  }

  lemma TrimOfTrimmed(s: string)
    requires IsTrimmed(s)
    ensures Trim(s) == s
  {
  }

  // ----- byte offsets -----

  /** `s[k..]` with a byte offset: nothing when the offset is not on a character boundary. */
  function SliceFrom(s: string, k: nat): Option<string> {
    if k == 0 then Some(s)
    else if s == "" || Width(s[0]) > k then None
    else SliceFrom(s[1..], k - Width(s[0]))
  }

  /** Byte offset `k` lies between character `i - 1` and character `i`. */
  predicate Boundary(s: string, k: nat, i: nat) {
    i <= |s| && Size(s[..i]) == k
  }

  /** Slicing succeeds exactly on a character boundary and then drops the characters before it. */
  lemma {:induction false} SliceExactlyWhen(s: string, k: nat)
    ensures SliceFrom(s, k).Some? <==> exists i: nat :: Boundary(s, k, i)
    ensures SliceFrom(s, k).Some? ==>
              exists i: nat :: Boundary(s, k, i) && SliceFrom(s, k).value == s[i..]
  {
    if k == 0 {
      assert Boundary(s, 0, 0);
      assert s[0..] == s;
    } else if s != "" {
      var rest := s[1..];
      if Width(s[0]) <= k {
        var k' := k - Width(s[0]);
        SliceExactlyWhen(rest, k');
        if SliceFrom(rest, k').Some? {
          var i: nat :| Boundary(rest, k', i) && SliceFrom(rest, k').value == rest[i..];
          ShiftBoundary(s, k, i + 1);
          assert s[i + 1..] == rest[i..];
        }
      }
      forall i: nat | Boundary(s, k, i) ensures Width(s[0]) <= k && Boundary(rest, k - Width(s[0]), i - 1) {
        ShiftBoundary(s, k, i);
      }
    }
  }

  lemma ShiftBoundary(s: string, k: nat, i: nat)
    requires s != "" && k > 0
    ensures Boundary(s, k, i) <==> i > 0 && Width(s[0]) <= k && Boundary(s[1..], k - Width(s[0]), i - 1)
  {
    if 0 < i <= |s| {
      assert s[..i][0] == s[0] && s[..i][1..] == s[1..][..i - 1];
    }
  }

  // ----- lines -----

  /** Index of the first line feed, or the length. */
  function LineEnd(text: string): (n: nat)
    ensures n <= |text| && (n < |text| ==> text[n] == '\n')
    ensures forall i :: 0 <= i < n ==> text[i] != '\n'
  {
    if text == "" || text[0] == '\n' then 0 else 1 + LineEnd(text[1..])
  }

  function WithoutReturn(line: string): string {
    if line != "" && line[|line| - 1] == '\r' then line[..|line| - 1] else line
  }

  /** `text.lines()`: a line feed ends a line, together with a carriage return right before it. */
  function Lines(text: string): seq<string> {
    if text == "" then []
    else
      var n := LineEnd(text);
      if n == |text| then [text] else [WithoutReturn(text[..n])] + Lines(text[n + 1..])
  }

  /** Every line with its line feed back. */
  function Unlines(lines: seq<string>): string {
    if lines == [] then "" else lines[0] + "\n" + Unlines(lines[1..])
  }

  predicate Has(s: string, c: char) {
    exists i :: 0 <= i < |s| && s[i] == c
  }

  /** No line has a line feed in it. */
  lemma {:induction false} LinesAreLines(text: string)
    ensures forall i :: 0 <= i < |Lines(text)| ==> !Has(Lines(text)[i], '\n')
  {
    if text != "" {
      var n := LineEnd(text);
      if n < |text| {
        LinesAreLines(text[n + 1..]);
        FirstLineIsLine(text);
      }
    }
  }

  lemma FirstLineIsLine(text: string)
    ensures !Has(WithoutReturn(text[..LineEnd(text)]), '\n')
  {
    var line := text[..LineEnd(text)];
    assert forall i :: 0 <= i < |line| ==> line[i] == text[i];
  }

  lemma UnlinesCons(line: string, rest: seq<string>)
    ensures Unlines([line] + rest) == line + "\n" + Unlines(rest)
  {
    assert ([line] + rest)[0] == line && ([line] + rest)[1..] == rest;
  }

  /** The text, or the text with a line feed at the end. */
  predicate UpToLastFeed(joined: string, text: string) {
    joined == text || joined == text + "\n"
  }

  lemma FeedMoves(line: string, rest: string, joined: string)
    requires UpToLastFeed(joined, rest)
    ensures UpToLastFeed(line + "\n" + joined, line + "\n" + rest)
  {
    if joined != rest {
      assert line + "\n" + (rest + "\n") == (line + "\n" + rest) + "\n";
    }
  }

  lemma PartsHaveNoReturn(text: string, n: nat, line: string, rest: string)
    requires n < |text| && !Has(text, '\r') && line == text[..n] && rest == text[n + 1..]
    ensures WithoutReturn(line) == line && !Has(rest, '\r')
  {
    assert forall i :: 0 <= i < |rest| ==> rest[i] == text[n + 1 + i];
    assert n > 0 ==> line[n - 1] == text[n - 1];
  }

  lemma FirstLine(text: string, n: nat, line: string, rest: string)
    requires text != "" && n == LineEnd(text) && n < |text| && line == text[..n] && rest == text[n + 1..]
    ensures text == line + "\n" + rest && Lines(text) == [WithoutReturn(line)] + Lines(rest)
  {
    assert text[n] == '\n';
  }

  lemma OnlyLine(text: string)
    requires text != "" && LineEnd(text) == |text|
    ensures Unlines(Lines(text)) == text + "\n"
  {
    UnlinesCons(text, []);
    assert [text] + [] == [text];
    assert text + "\n" + "" == text + "\n";
  }

  /** Without carriage returns, the lines give back the text, up to the line feed a last line may lack. */
  lemma {:induction false} LinesRejoin(text: string)
    requires !Has(text, '\r')
    ensures UpToLastFeed(Unlines(Lines(text)), text)
    decreases |text|, 1
  {
    if text != "" {
      var n := LineEnd(text);
      if n == |text| {
        OnlyLine(text);
      } else {
        RejoinAfter(text, n, text[..n], text[n + 1..]);
      }
    }
  }

  lemma {:induction false} RejoinAfter(text: string, n: nat, line: string, rest: string)
    requires !Has(text, '\r') && text != "" && n == LineEnd(text) && n < |text| && line == text[..n] && rest == text[n + 1..]
    ensures UpToLastFeed(Unlines(Lines(text)), text)
    decreases |text|, 0
  {
    PartsHaveNoReturn(text, n, line, rest);
    FirstLine(text, n, line, rest);
    LinesRejoin(rest);
    UnlinesCons(line, Lines(rest));
    FeedMoves(line, rest, Unlines(Lines(rest)));
  }
}
