/** The string methods of Python that the scripts and routes rely on. */
module Strings {

  /** Where `str.splitlines` breaks. */
  predicate IsBreak(c: char) {
    || c == '\n' || c == '\r' || c == '\U{0B}' || c == '\U{0C}' || '\U{1C}' <= c <= '\U{1E}'
    || c == '\U{85}' || c == '\U{2028}' || c == '\U{2029}'
  }

  /** What `str.strip` removes when it is not told. */
  predicate IsSpace(c: char) {
    || IsBreak(c) || c == ' ' || c == '\t' || c == '\U{1F}' || c == '\U{A0}' || c == '\U{1680}'
    || '\U{2000}' <= c <= '\U{200A}' || c == '\U{202F}' || c == '\U{205F}' || c == '\U{3000}'
  }

  const BREAKS := [10, 11, 12, 13, 28, 29, 30, 133, 8232, 8233]

  /** The rest of the characters for which `str.isspace` holds. */
  const BLANKS := [9, 31, 32, 160, 5760, 8192, 8193, 8194, 8195, 8196, 8197, 8198, 8199, 8200, 8201, 8202, 8239, 8287,
                   12288]

  lemma {:induction false} BreaksExactly(c: char)
    ensures IsBreak(c) <==> c as int in BREAKS
  {
    var n := c as int;
    assert 10 <= n <= 13 ==> n == BREAKS[n - 10];
    assert 28 <= n <= 30 ==> n == BREAKS[n - 24];
    assert BREAKS[7] == 133 && BREAKS[8] == 8232 && BREAKS[9] == 8233;
  }

  lemma {:induction false} SpacesExactly(c: char)
    ensures IsSpace(c) <==> c as int in BREAKS || c as int in BLANKS
  {
    var n := c as int;
    BreaksExactly(c);
    assert BLANKS[0] == 9 && BLANKS[1] == 31 && BLANKS[2] == 32 && BLANKS[3] == 160 && BLANKS[4] == 5760;
    assert 8192 <= n <= 8202 ==> n == BLANKS[n - 8187];
    assert BLANKS[16] == 8239 && BLANKS[17] == 8287 && BLANKS[18] == 12288;
  }

  predicate OneLine(s: string) {
    forall i :: 0 <= i < |s| ==> !IsBreak(s[i])
  }

  predicate Has(s: string, c: char) {
    exists i :: 0 <= i < |s| && s[i] == c
  }

  /** The length of the first line, without its break. */
  function LineEnd(text: string): (n: nat)
    ensures n <= |text|
  {
    if text == "" || IsBreak(text[0]) then 0 else 1 + LineEnd(text[1..])
  }

  function SplitLines(text: string): seq<string> {
    if text == "" then []
    else
      var n := LineEnd(text);
      if n == |text| then [text]
      else if text[n] == '\r' && n + 1 < |text| && text[n + 1] == '\n' then [text[..n]] + SplitLines(text[n + 2..])
      else [text[..n]] + SplitLines(text[n + 1..])
  }

  function LStrip(s: string, drop: char -> bool): string {
    if s != "" && drop(s[0]) then LStrip(s[1..], drop) else s
  }

  function RStrip(s: string, drop: char -> bool): string {
    if s != "" && drop(s[|s| - 1]) then RStrip(s[..|s| - 1], drop) else s
  }

  function StripOf(s: string, drop: char -> bool): string {
    RStrip(LStrip(s, drop), drop)
  }

  function Strip(s: string): string {
    StripOf(s, IsSpace)
  }

  // ---------- What stripping leaves ----------

  lemma {:induction false} LStripIsSuffix(s: string, drop: char -> bool)
    ensures var r := LStrip(s, drop); |r| <= |s| && r == s[|s| - |r|..] && (r == "" || !drop(r[0]))
    ensures forall i :: 0 <= i < |s| - |LStrip(s, drop)| ==> drop(s[i])
  {
    if s != "" && drop(s[0]) {
      LStripIsSuffix(s[1..], drop);
    }
  }

  lemma {:induction false} RStripIsPrefix(s: string, drop: char -> bool)
    ensures var r := RStrip(s, drop); |r| <= |s| && r == s[..|r|] && (r == "" || !drop(r[|r| - 1]))
    ensures forall i :: |RStrip(s, drop)| <= i < |s| ==> drop(s[i])
    ensures s != "" && !drop(s[0]) ==> RStrip(s, drop) != ""
  {
    if s != "" && drop(s[|s| - 1]) {
      RStripIsPrefix(s[..|s| - 1], drop);
    }
  }

  /** Nothing at either end is of the kind that was stripped. */
  lemma {:induction false} StripIsTrimmed(s: string, drop: char -> bool)
    ensures var r := StripOf(s, drop); r == "" || (!drop(r[0]) && !drop(r[|r| - 1]))
  {
    LStripIsSuffix(s, drop);
    RStripIsPrefix(LStrip(s, drop), drop);
  }

  predicate AllDropped(s: string, drop: char -> bool) {
    forall i :: 0 <= i < |s| ==> drop(s[i])
  }

  /** `str.strip`: only such characters go, and only from the ends. */
  lemma {:induction false} StripExactly(before: string, kept: string, after: string, drop: char -> bool)
    requires AllDropped(before, drop) && AllDropped(after, drop)
    requires kept == "" || (!drop(kept[0]) && !drop(kept[|kept| - 1]))
    ensures StripOf(before + kept + after, drop) == kept
  {
    var s := before + kept + after;
    var l := LStrip(s, drop);
    LStripIsSuffix(s, drop);
    if kept == "" {
      assert s == before + after;
      assert AllDropped(s, drop);
      assert l == "";
    } else {
      assert s[|before|] == kept[0];
      assert l == s[|before|..] == kept + after;
      RStripIsPrefix(l, drop);
      assert l[|kept| - 1] == kept[|kept| - 1];
    }
  }

  lemma {:induction false} TrimmedIsStripped(s: string, drop: char -> bool)
    requires s == "" || (!drop(s[0]) && !drop(s[|s| - 1]))
    ensures StripOf(s, drop) == s
  {
  }

  lemma {:induction false} StripKeepsFirst(s: string, drop: char -> bool)
    requires s != "" && !drop(s[0])
    ensures StripOf(s, drop) != "" && StripOf(s, drop)[0] == s[0]
  {
    RStripIsPrefix(s, drop);
  }

  lemma {:induction false} StripStaysIn(s: string, drop: char -> bool)
    ensures forall c :: Has(StripOf(s, drop), c) ==> Has(s, c)
    ensures OneLine(s) ==> OneLine(StripOf(s, drop))
  {
    var l, r := LStrip(s, drop), StripOf(s, drop);
    LStripIsSuffix(s, drop);
    RStripIsPrefix(l, drop);
    assert forall j :: 0 <= j < |r| ==> r[j] == l[j] == s[|s| - |l| + j];
  }

  // ---------- Lines ----------

  ghost predicate OneLineEach(lines: seq<string>) {
    forall i :: 0 <= i < |lines| ==> OneLine(lines[i])
  }

  lemma {:induction false} LineEndIsFirst(text: string)
    ensures OneLine(text[..LineEnd(text)])
    ensures LineEnd(text) < |text| ==> IsBreak(text[LineEnd(text)])
  {
    if text != "" && !IsBreak(text[0]) {
      LineEndIsFirst(text[1..]);
      var n := LineEnd(text[1..]);
      assert forall i :: 1 <= i < n + 1 ==> text[i] == text[1..][..n][i - 1];
    }
  }

  lemma {:induction false} LinesAreOneLine(text: string)
    ensures OneLineEach(SplitLines(text))
    decreases |text|
  {
    if text != "" {
      var n := LineEnd(text);
      LineEndIsFirst(text);
      assert text[..|text|] == text;
      if n < |text| {
        LinesAreOneLine(text[n + 1..]);
        if n + 1 < |text| {
          LinesAreOneLine(text[n + 2..]);
        }
      }
    }
  }

  /** Every line with its newline. */
  function Terminated(lines: seq<string>): string {
    if |lines| == 0 then "" else lines[0] + "\n" + Terminated(lines[1..])
  }

  lemma {:induction false} LineEndOf(line: string, rest: string)
    requires OneLine(line) && (rest != "" ==> IsBreak(rest[0]))
    ensures LineEnd(line + rest) == |line|
  {
    var text := line + rest;
    if line != "" {
      assert text[0] == line[0];
      assert text[1..] == line[1..] + rest;
      LineEndOf(line[1..], rest);
    } else {
      assert text == rest;
    }
  }

  /** Lines that are written out are read back. */
  lemma {:induction false} SplitTerminated(lines: seq<string>)
    requires OneLineEach(lines)
    ensures SplitLines(Terminated(lines)) == lines
  {
    if |lines| > 0 {
      var rest := Terminated(lines[1..]);
      var text := lines[0] + "\n" + rest;
      assert text == lines[0] + ("\n" + rest);
      LineEndOf(lines[0], "\n" + rest);
      assert text[..|lines[0]|] == lines[0] && text[|lines[0]| + 1..] == rest;
      SplitTerminated(lines[1..]);
    }
  }

  // ---------- Which lines those are ----------

  /** What ends a line before `rest`: one break, or a carriage return and its newline, never one without the other. */
  predicate IsLineEnd(end: string, rest: string) {
    || end == "\r\n"
    || (|end| == 1 && IsBreak(end[0]) && !(end == "\r" && rest != "" && rest[0] == '\n'))
  }

  function Joined(lines: seq<string>, ends: seq<string>): string
    requires |lines| == |ends|
  {
    if |lines| == 0 then "" else lines[0] + ends[0] + Joined(lines[1..], ends[1..])
  }

  /** Every line has its end; only the last, when there is something on it, can lack one. */
  predicate Delimits(ends: seq<string>, lines: seq<string>)
    requires |lines| == |ends|
  {
    |lines| > 0 ==>
      && OneLine(lines[0]) && Delimits(ends[1..], lines[1..])
      && (IsLineEnd(ends[0], Joined(lines[1..], ends[1..])) || (ends == [""] && lines[0] != ""))
  }

  ghost predicate AreLinesOf(lines: seq<string>, text: string) {
    exists ends: seq<string> :: |ends| == |lines| && Delimits(ends, lines) && Joined(lines, ends) == text
  }

  lemma {:induction false} SplitOne(line: string, end: string, rest: string)
    requires OneLine(line) && IsLineEnd(end, rest)
    ensures SplitLines(line + end + rest) == [line] + SplitLines(rest)
  {
    var text := line + end + rest;
    assert text == line + (end + rest);
    LineEndOf(line, end + rest);
    assert text[..|line|] == line && text[|line| + |end|..] == rest;
    assert text[|line|] == end[0];
    if |line| + 1 < |text| {
      assert text[|line| + 1] == (end + rest)[1];
    }
  }

  lemma {:induction false} SplitLast(line: string)
    requires OneLine(line) && line != ""
    ensures SplitLines(line) == [line]
  {
    assert line + "" == line;
    LineEndOf(line, "");
  }

  lemma {:induction false} SplitDelimited(lines: seq<string>, ends: seq<string>)
    requires |ends| == |lines| && Delimits(ends, lines)
    ensures SplitLines(Joined(lines, ends)) == lines
  {
    if |lines| > 0 {
      SplitDelimited(lines[1..], ends[1..]);
      assert lines == [lines[0]] + lines[1..];
      if IsLineEnd(ends[0], Joined(lines[1..], ends[1..])) {
        SplitOne(lines[0], ends[0], Joined(lines[1..], ends[1..]));
      } else {
        assert lines[1..] == [];
        assert lines[0] + "" + "" == lines[0];
        SplitLast(lines[0]);
      }
    }
  }

  lemma {:induction false} DelimitedBy(line: string, end: string, rest: string, others: seq<string>)
    returns (ends: seq<string>)
    requires OneLine(line) && IsLineEnd(end, rest)
    requires |others| == |SplitLines(rest)| && Delimits(others, SplitLines(rest))
    requires Joined(SplitLines(rest), others) == rest
    ensures var lines := SplitLines(line + end + rest);
            |ends| == |lines| && Delimits(ends, lines) && Joined(lines, ends) == line + end + rest
  {
    ends := [end] + others;
    SplitOne(line, end, rest);
    assert ([line] + SplitLines(rest))[1..] == SplitLines(rest) && ends[1..] == others;
  }

  lemma {:induction false} CutAt(text: string, n: nat) returns (end: string, rest: string)
    requires n < |text| && IsBreak(text[n])
    ensures IsLineEnd(end, rest) && text == text[..n] + end + rest && |rest| < |text|
  {
    if text[n] == '\r' && n + 1 < |text| && text[n + 1] == '\n' {
      end, rest := "\r\n", text[n + 2..];
      assert text[n..] == end + rest;
    } else {
      end, rest := [text[n]], text[n + 1..];
    }
  }

  lemma {:induction false} LinesAreDelimited(text: string) returns (ends: seq<string>)
    ensures |ends| == |SplitLines(text)| && Delimits(ends, SplitLines(text)) && Joined(SplitLines(text), ends) == text
    decreases |text|
  {
    ends := [];
    if text != "" {
      var n := LineEnd(text);
      LineEndIsFirst(text);
      if n == |text| {
        assert text[..|text|] == text;
        ends := [""];
        assert Joined([text], ends) == text;
      } else {
        var end, rest := CutAt(text, n);
        var others := LinesAreDelimited(rest);
        ends := DelimitedBy(text[..n], end, rest, others);
      }
    }
  }

  /** `str.splitlines`: the lines of a text are those that, each with its end, make it up. */
  lemma {:induction false} SplitExactly(text: string, lines: seq<string>)
    ensures SplitLines(text) == lines <==> AreLinesOf(lines, text)
  {
    if AreLinesOf(lines, text) {
      var ends: seq<string> :| |ends| == |lines| && Delimits(ends, lines) && Joined(lines, ends) == text;
      SplitDelimited(lines, ends);
    }
    if SplitLines(text) == lines {
      var ends := LinesAreDelimited(text);
    }
  }
}
