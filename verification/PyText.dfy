/** The few Python string operations that the audit tool relies on. */
module PyText {

  /** The characters that `str.strip()` removes: Python's white space, which is wider than ASCII's. */
  predicate IsSpace(c: char) {
    var k := c as int;
    || 0x09 <= k <= 0x0D || 0x1C <= k <= 0x20 || k == 0x85 || k == 0xA0 || k == 0x1680
    || 0x2000 <= k <= 0x200A || k == 0x2028 || k == 0x2029 || k == 0x202F || k == 0x205F || k == 0x3000
  }

  /** There are 29 of them. */
  lemma SpacesListed(c: char)
    ensures IsSpace(c) <==> c in [
      '\U{9}', '\U{A}', '\U{B}', '\U{C}', '\U{D}', '\U{1C}', '\U{1D}', '\U{1E}', '\U{1F}', ' ', '\U{85}', '\U{A0}', '\U{1680}',
      '\U{2000}', '\U{2001}', '\U{2002}', '\U{2003}', '\U{2004}', '\U{2005}', '\U{2006}', '\U{2007}', '\U{2008}', '\U{2009}',
      '\U{200A}', '\U{2028}', '\U{2029}', '\U{202F}', '\U{205F}', '\U{3000}']
  {
  }

  ghost predicate Blank(s: string) {
    forall i :: 0 <= i < |s| ==> IsSpace(s[i])
  }

  /** No white space at either end. */
  predicate Trimmed(s: string) {
    s == "" || (!IsSpace(s[0]) && !IsSpace(s[|s| - 1]))
  }

  function TrimLeft(s: string): (r: string)
    ensures |r| <= |s| && (r == "" || !IsSpace(r[0]))
  {
    if s == "" || !IsSpace(s[0]) then s else TrimLeft(s[1..])
  }

  function TrimRight(s: string): (r: string)
    ensures r <= s && (r == "" || !IsSpace(r[|r| - 1]))
  {
    if s == "" || !IsSpace(s[|s| - 1]) then s else TrimRight(s[..|s| - 1])
  }

  /** `str.strip()`. */
  function Strip(s: string): (r: string)
    ensures Trimmed(r)
  {
    TrimRight(TrimLeft(s))
  }

  /** What `Strip` means: it returns the trimmed middle of any padding. */
  lemma {:induction false} StripPadded(before: string, s: string, after: string)
    requires Blank(before) && Blank(after) && Trimmed(s) && s != ""
    ensures Strip(before + s + after) == s
  {
    TrimLeftPadded(before, s + after);
    assert before + s + after == before + (s + after);
    TrimRightPadded(s, after);
  }

  lemma {:induction false} TrimLeftPadded(before: string, s: string)
    requires Blank(before) && s != "" && !IsSpace(s[0])
    ensures TrimLeft(before + s) == s
  {
    if before == "" {
      assert before + s == s;
    } else {
      assert (before + s)[1..] == before[1..] + s;
      TrimLeftPadded(before[1..], s);
    }
  }

  lemma {:induction false} TrimRightPadded(s: string, after: string)
    requires Blank(after) && s != "" && !IsSpace(s[|s| - 1])
    ensures TrimRight(s + after) == s
  {
    if after == "" {
      assert s + after == s;
    } else {
      var n := |after| - 1;
      assert (s + after)[..|s + after| - 1] == s + after[..n];
      assert (s + after)[|s + after| - 1] == after[n];
      TrimRightPadded(s, after[..n]);
    }
  }

  lemma StripTrimmed(s: string)
    requires Trimmed(s)
    ensures Strip(s) == s
  {
  }

  /** The line is `t` between two runs of white space. */
  ghost predicate Pads(s: string, t: string) {
    exists before: nat :: PadsAt(s, t, before)
  }

  ghost predicate PadsAt(s: string, t: string, before: nat) {
    && before + |t| <= |s| && s[before..before + |t|] == t
    && Blank(s[..before]) && Blank(s[before + |t|..])
  }

  /** `Strip` returns the one trimmed string that the line pads; a line of white space pads the empty string. */
  lemma {:induction false} StripExact(s: string, t: string)
    ensures Strip(s) == t <==> Trimmed(t) && Pads(s, t)
  {
    StripIsPadded(s);
    if Trimmed(t) && Pads(s, t) {
      var before: nat :| PadsAt(s, t, before);
      StripPaddedAt(s, t, before);
    }
  }

  lemma {:induction false} StripPaddedAt(s: string, t: string, before: nat)
    requires Trimmed(t) && PadsAt(s, t, before)
    ensures Strip(s) == t
  {
    var x, y := s[..before], s[before + |t|..];
    assert s == x + t + y;
    if t == "" {
      assert s == x + y;
      StripBlank(s);
    } else {
      StripPadded(x, t, y);
    }
  }

  lemma {:induction false} StripIsPadded(s: string)
    ensures Pads(s, Strip(s))
  {
    TrimLeftDrops(s);
    TrimRightDrops(TrimLeft(s));
    var n := |s| - |TrimLeft(s)|;
    var m := n + |Strip(s)|;
    assert s[n..][|Strip(s)|..] == s[m..];
    assert s[n..m] == Strip(s);
    assert PadsAt(s, Strip(s), n);
  }

  lemma {:induction false} TrimLeftDrops(s: string)
    ensures TrimLeft(s) == s[|s| - |TrimLeft(s)|..] && Blank(s[..|s| - |TrimLeft(s)|])
  {
    if s != "" && IsSpace(s[0]) {
      TrimLeftDrops(s[1..]);
      var n := |s| - |TrimLeft(s)|;
      assert s[..n] == [s[0]] + s[1..][..n - 1];
    }
  }

  lemma {:induction false} TrimRightDrops(s: string)
    ensures Blank(s[|TrimRight(s)|..])
  {
    if s != "" && IsSpace(s[|s| - 1]) {
      TrimRightDrops(s[..|s| - 1]);
      var n := |TrimRight(s)|;
      assert s[n..] == s[..|s| - 1][n..] + [s[|s| - 1]];
    }
  }

  lemma {:induction false} StripBlank(s: string)
    requires Blank(s)
    ensures Strip(s) == ""
  {
    if s != "" {
      assert Blank(s[1..]);
      StripBlank(s[1..]);
      assert TrimLeft(s) == TrimLeft(s[1..]);
    }
  }

  predicate StartsWith(s: string, prefix: string) {
    prefix <= s
  }

  predicate EndsWith(s: string, suffix: string) {
    |suffix| <= |s| && s[|s| - |suffix|..] == suffix
  }

  /** The position of the first `c`, or the length when there is none. */
  function IndexOf(s: string, c: char): (n: nat)
    ensures n <= |s|
    ensures n < |s| ==> s[n] == c
    ensures c !in s[..n]
  {
    if s == "" || s[0] == c then 0
    else
      var n := 1 + IndexOf(s[1..], c);
      assert s[..n] == [s[0]] + s[1..][..n - 1];
      n
  }

  lemma IndexOfFirst(a: string, c: char, b: string)
    requires c !in a
    ensures IndexOf(a + [c] + b, c) == |a|
  {
    var s := a + [c] + b;
    if a != "" {
      assert s[1..] == a[1..] + [c] + b;
      IndexOfFirst(a[1..], c, b);
    }
  }

  /** Reading a text file line by line with universal newlines; the terminators are dropped here, because
      the caller strips every line at once. */
  function ReadLines(text: string): seq<string>
    decreases |text|
  {
    if text == "" then []
    else
      var k := FirstBreak(text);
      if k == |text| then [text]
      else if text[k] == '\r' && k + 1 < |text| && text[k + 1] == '\n' then [text[..k]] + ReadLines(text[k + 2..])
      else [text[..k]] + ReadLines(text[k + 1..])
  }

  predicate IsBreak(c: char) {
    c == '\n' || c == '\r'
  }

  predicate OneLine(s: string) {
    '\n' !in s && '\r' !in s
  }

  function FirstBreak(s: string): (n: nat)
    ensures n <= |s|
    ensures n < |s| ==> IsBreak(s[n])
    ensures OneLine(s[..n])
  {
    if s == "" || IsBreak(s[0]) then 0
    else
      var n := 1 + FirstBreak(s[1..]);
      assert s[..n] == [s[0]] + s[1..][..n - 1];
      n
  }

  /** Each of the three line terminators ends a line; a lone carriage return must not be followed by a
      line feed, which would belong to it. */
  lemma ReadLine(line: string, eol: string, rest: string)
    requires OneLine(line) && IsEol(eol) && (eol == "\r" ==> rest == "" || rest[0] != '\n')
    ensures ReadLines(line + eol + rest) == [line] + ReadLines(rest)
  {
    var text := line + eol + rest;
    assert text == line + (eol + rest);
    FirstBreakAfter(line, eol + rest);
    TakeLine(text, line, eol, rest);
  }

  /** The step of `ReadLines` at the first line break. */
  lemma TakeLine(text: string, line: string, eol: string, rest: string)
    requires text == line + eol + rest && FirstBreak(text) == |line|
    requires IsEol(eol) && (eol == "\r" ==> rest == "" || rest[0] != '\n')
    ensures ReadLines(text) == [line] + ReadLines(rest)
  {
    var k := |line|;
    assert text[..k] == line && text[k] == eol[0] && text[k + |eol|..] == rest;
    if eol == "\r\n" {
      assert text[k + 1] == '\n';
    } else if rest != "" {
      assert text[k + 1] == rest[0];
    }
  }

  /** The last line need not be terminated. */
  lemma ReadLast(line: string)
    requires OneLine(line)
    ensures ReadLines(line) == if line == "" then [] else [line]
  {
    NoBreak(line);
  }

  lemma {:induction false} NoBreak(line: string)
    requires OneLine(line)
    ensures FirstBreak(line) == |line|
  {
    if line != "" {
      OneLineTail(line);
      NoBreak(line[1..]);
    }
  }

  predicate IsEol(eol: string) {
    eol in {"\n", "\r\n", "\r"}
  }

  lemma {:induction false} FirstBreakAfter(line: string, more: string)
    requires OneLine(line)
    requires more != "" && IsBreak(more[0])
    ensures FirstBreak(line + more) == |line|
  {
    if line == "" {
      assert line + more == more;
    } else {
      OneLineTail(line);
      FirstBreakAfter(line[1..], more);
      FirstBreakStep(line[0], line[1..] + more);
      assert line + more == [line[0]] + (line[1..] + more);
    }
  }

  lemma FirstBreakStep(c: char, s: string)
    requires !IsBreak(c)
    ensures FirstBreak([c] + s) == 1 + FirstBreak(s)
  {
    assert ([c] + s)[1..] == s;
  }

  lemma OneLineTail(line: string)
    requires OneLine(line) && line != ""
    ensures OneLine(line[1..]) && !IsBreak(line[0])
  {
    assert forall c :: c in line[1..] ==> c in line;
    assert line[0] in line;
  }
}
