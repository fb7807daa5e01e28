/** The line-driven parser of the audit exception list (sub2api/tools/check_pnpm_audit_exceptions.py). */
module ExceptionFile {
  import opened PyText
  import opened Wrappers

  /** One exception entry, a Python `dict` from field name to value. */
  type Record = map<string, string>

  /** The parser's two variables: the finished entries and the entry being read, if any. */
  datatype State = State(done: seq<Record>, current: Option<Record>)

  const START := State([], None)

  /** Assignment to a dict key; the dict is then not empty. */
  function Put(m: Record, k: string, v: string): (r: Record)
    ensures r != map[]
  {
    assert k in m[k := v];
    m[k := v]
  }

  predicate Ignored(line: string) {
    line == "" || StartsWith(line, "#") || StartsWith(line, "version:") || StartsWith(line, "exceptions:")
  }

  predicate IsItem(raw: string) {
    StartsWith(Strip(raw), "- ")
  }

  /** What follows the dash of an item line. */
  function ItemBody(raw: string): string
    requires IsItem(raw)
  {
    Strip(Strip(raw)[2..])
  }

  function Unquote(value: string): string {
    if (StartsWith(value, "\"") && EndsWith(value, "\"")) || (StartsWith(value, "'") && EndsWith(value, "'")) then
      // a lone quote character is both the start and the end; Python's value[1:-1] is then empty
      if |value| < 2 then "" else value[1..|value| - 1]
    else
      value
  }

  /** `split_kv`; None stands for the ValueError that unpacking raises when the line has no colon. */
  function SplitKV(line: string): Option<(string, string)> {
    var n := IndexOf(line, ':');
    if n == |line| then None
    else Some((Strip(line[..n]), Unquote(Strip(line[n + 1..]))))
  }

  /** The entry under construction counts only when it is a non-empty dict. */
  function Flush(st: State): seq<Record> {
    if st.current.Some? && st.current.value != map[] then st.done + [st.current.value] else st.done
  }

  /** One iteration of the loop; None when `split_kv` raises. */
  function Step(st: State, raw: string): Option<State> {
    var line := Strip(raw);
    if Ignored(line) then
      Some(st)
    else if IsItem(raw) then
      if ItemBody(raw) == "" then Some(State(Flush(st), Some(map[])))
      else
        match SplitKV(ItemBody(raw))
        case None => None
        case Some((k, v)) => Some(State(Flush(st), Some(Put(map[], k, v))))
    else if st.current.Some? && IndexOf(line, ':') < |line| then
      match SplitKV(line)
      case None => None
      case Some((k, v)) => Some(State(st.done, Some(Put(st.current.value, k, v))))
    else
      Some(st)
  }

  function Run(st: State, lines: seq<string>): Option<State>
    decreases |lines|
  {
    if lines == [] then Some(st)
    else
      match Step(st, lines[0])
      case None => None
      case Some(next) => Run(next, lines[1..])
  }

  /** The entries of a file, given as its lines; None when the parser raises. */
  function Parse(lines: seq<string>): Option<seq<Record>> {
    match Run(START, lines)
    case None => None
    case Some(st) => Some(Flush(st))
  }

  method ParseExceptions(lines: seq<string>) returns (r: Option<seq<Record>>)
    ensures r == Parse(lines)
  {
    var exceptions: seq<Record> := [];
    var current: Option<Record> := None;
    for i := 0 to |lines|
      invariant Run(START, lines) == Run(State(exceptions, current), lines[i..])
    {
      var line := Strip(lines[i]);
      if Ignored(line) {
        continue;
      }
      if StartsWith(line, "- ") {
        if current.Some? && current.value != map[] {
          exceptions := exceptions + [current.value];
        }
        current := Some(map[]);
        line := Strip(line[2..]);
        if line != "" {
          var kv := SplitKV(line);
          if kv.None? {
            return None;
          }
          current := Some(Put(current.value, kv.value.0, kv.value.1));
        }
        continue;
      }
      if current.Some? && IndexOf(line, ':') < |line| {
        var kv := SplitKV(line);
        current := Some(Put(current.value, kv.value.0, kv.value.1));
      }
    }
    if current.Some? && current.value != map[] {
      exceptions := exceptions + [current.value];
    }
    return Some(exceptions);
  }

  // ---------------------------------------------------------------- item lines and entries

  function ItemCount(lines: seq<string>): nat {
    if lines == [] then 0 else (if IsItem(lines[0]) then 1 else 0) + ItemCount(lines[1..])
  }

  /** An item line that makes `split_kv` raise. */
  predicate Broken(raw: string) {
    IsItem(raw) && ':' !in ItemBody(raw)
  }

  ghost predicate NoneEmpty(st: State) {
    && (forall r <- st.done :: r != map[])
    && (st.current.Some? ==> st.current.value != map[])
  }

  /** An item line always has a body, because stripping has already removed a trailing blank. */
  lemma {:induction false} ItemHasBody(raw: string)
    requires IsItem(raw)
    ensures ItemBody(raw) != ""
    ensures !Ignored(Strip(raw))
  {
    var line := Strip(raw);
    assert line[0] == '-' && line[1] == ' ';
    var rest := line[2..];
    assert |line| > 2 && !IsSpace(rest[|rest| - 1]);
    TrimLeftKeepsLast(rest);
    assert TrimLeft(rest) != "" && TrimRight(TrimLeft(rest)) == TrimLeft(rest);
  }

  lemma {:induction false} TrimLeftKeepsLast(s: string)
    requires s != "" && !IsSpace(s[|s| - 1])
    ensures TrimLeft(s) != "" && TrimLeft(s)[|TrimLeft(s)| - 1] == s[|s| - 1]
  {
    if IsSpace(s[0]) {
      TrimLeftKeepsLast(s[1..]);
    }
  }

  lemma {:induction false} IndexOfPresent(s: string, c: char)
    ensures IndexOf(s, c) == |s| <==> c !in s
  {
    assert s[..|s|] == s;
  }

  /** Each step either raises on a broken item line, or adds exactly the entry that an item line announces. */
  lemma {:induction false} StepCounts(st: State, raw: string)
    requires NoneEmpty(st)
    ensures Step(st, raw) == None <==> Broken(raw)
    ensures Step(st, raw).Some? ==>
      && NoneEmpty(Step(st, raw).value)
      && |Flush(Step(st, raw).value)| == |Flush(st)| + (if IsItem(raw) then 1 else 0)
  {
    if IsItem(raw) {
      ItemHasBody(raw);
      SplitNeedsColon(ItemBody(raw));
    } else if !Ignored(Strip(raw)) {
      SplitNeedsColon(Strip(raw));
    }
  }

  lemma {:induction false} SplitNeedsColon(line: string)
    ensures SplitKV(line) == None <==> ':' !in line
  {
    IndexOfPresent(line, ':');
  }

  lemma {:induction false} RunCounts(st: State, lines: seq<string>)
    requires NoneEmpty(st)
    ensures Run(st, lines) == None <==> exists raw <- lines :: Broken(raw)
    ensures Run(st, lines).Some? ==>
      && NoneEmpty(Run(st, lines).value)
      && |Flush(Run(st, lines).value)| == |Flush(st)| + ItemCount(lines)
    decreases |lines|
  {
    if lines != [] {
      StepCounts(st, lines[0]);
      if Step(st, lines[0]).Some? {
        RunCounts(Step(st, lines[0]).value, lines[1..]);
        assert forall raw :: raw in lines <==> raw == lines[0] || raw in lines[1..];
      }
    }
  }

  /** The parser raises exactly on an item line without a colon; otherwise it returns one entry per item
      line, and no entry is empty. */
  lemma {:induction false} OneRecordPerItem(lines: seq<string>)
    ensures Parse(lines) == None <==> exists raw <- lines :: Broken(raw)
    ensures Parse(lines).Some? ==>
      |Parse(lines).value| == ItemCount(lines) && forall r <- Parse(lines).value :: r != map[]
  {
    RunCounts(START, lines);
  }

  // ---------------------------------------------------------------- concatenation

  lemma {:induction false} RunAppend(st: State, a: seq<string>, b: seq<string>)
    ensures Run(st, a + b) == match Run(st, a) { case None => None case Some(mid) => Run(mid, b) }
    decreases |a|
  {
    if a == [] {
      assert a + b == b;
    } else {
      assert (a + b)[1..] == a[1..] + b;
      if Step(st, a[0]).Some? {
        RunAppend(Step(st, a[0]).value, a[1..], b);
      }
    }
  }

  function After(earlier: seq<Record>, st: State): State {
    State(earlier + st.done, st.current)
  }

  /** Entries finished earlier have no influence on how the rest is read. */
  lemma {:induction false} RunAfter(earlier: seq<Record>, st: State, lines: seq<string>)
    ensures Run(After(earlier, st), lines) ==
            match Run(st, lines) { case None => None case Some(end) => Some(After(earlier, end)) }
    decreases |lines|
  {
    if lines != [] {
      StepAfter(earlier, st, lines[0]);
      if Step(st, lines[0]).Some? {
        RunAfter(earlier, Step(st, lines[0]).value, lines[1..]);
      }
    }
  }

  lemma {:induction false} FlushAfter(earlier: seq<Record>, st: State)
    ensures Flush(After(earlier, st)) == earlier + Flush(st)
  {
    if st.current.Some? && st.current.value != map[] {
      assert earlier + st.done + [st.current.value] == earlier + (st.done + [st.current.value]);
    }
  }

  lemma {:induction false} StepAfter(earlier: seq<Record>, st: State, raw: string)
    ensures Step(After(earlier, st), raw) ==
            match Step(st, raw) { case None => None case Some(end) => Some(After(earlier, end)) }
  {
    FlushAfter(earlier, st);
  }

  /** Parsing is compositional at every item line. */
  lemma {:induction false} ParseAppend(a: seq<string>, b: seq<string>)
    requires b != [] && IsItem(b[0])
    ensures Parse(a + b) ==
            match (Parse(a), Parse(b)) {
              case (Some(x), Some(y)) => Some(x + y)
              case _ => None
            }
  {
    RunAppend(START, a, b);
    if Run(START, a).Some? {
      var mid := Run(START, a).value;
      var clean := State(Flush(mid), None);
      ItemHasBody(b[0]);
      assert Step(mid, b[0]) == Step(clean, b[0]);
      assert clean == After(Flush(mid), START);
      RunAfter(Flush(mid), START, b);
      if Run(START, b).Some? {
        FlushAfter(Flush(mid), Run(START, b).value);
      }
    }
  }

  // ---------------------------------------------------------------- one line

  /** The same quote character at both ends, which may be one and the same. */
  predicate Wrapped(value: string) {
    value != "" && value[0] == value[|value| - 1] && (value[0] == '"' || value[0] == '\'')
  }

  /** Exactly one pair of equal quotes is taken off, and any other value is kept as it is. */
  lemma {:induction false} UnquoteExact(value: string)
    ensures !Wrapped(value) ==> Unquote(value) == value
    ensures Wrapped(value) ==> Unquote(value) == if |value| == 1 then "" else value[1..|value| - 1]
  {
    if value != "" {
      var last := |value| - 1;
      assert value[last..] == [value[last]];
      assert StartsWith(value, "\"") <==> value[0] == '"';
      assert StartsWith(value, "'") <==> value[0] == '\'';
      assert EndsWith(value, "\"") <==> value[last] == '"';
      assert EndsWith(value, "'") <==> value[last] == '\'';
    }
  }

  /** The first colon splits a line; white space around key and value does not matter, and a value may hold
      further colons. */
  lemma {:induction false} SplitPadded(key: string, rest: string, k: string, value: string)
    requires ':' !in key && Trimmed(k) && Pads(key, k) && Trimmed(value) && Pads(rest, value)
    ensures SplitKV(key + ":" + rest) == Some((k, Unquote(value)))
    ensures IndexOf(key + ":" + rest, ':') == |key|
  {
    var line := key + ":" + rest;
    assert line == key + [':'] + rest && line[..|key|] == key && line[|key| + 1..] == rest;
    IndexOfFirst(key, ':', rest);
    StripExact(key, k);
    StripExact(rest, value);
  }

  /** Only the stripped line matters. */
  lemma {:induction false} StepStrips(st: State, raw: string)
    ensures Step(st, raw) == Step(st, Strip(raw))
  {
    StripTrimmed(Strip(raw));
  }

  /** A line that says nothing: blank, a comment, or one of the two header lines. */
  predicate Neutral(raw: string) {
    var line := Strip(raw);
    || line == ""
    || line[0] == '#'
    || (|line| >= 8 && line[..8] == "version:")
    || (|line| >= 11 && line[..11] == "exceptions:")
  }

  lemma {:induction false} NeutralSkipped(st: State, raw: string)
    requires Neutral(raw)
    ensures Step(st, raw) == Some(st)
  {
    var line := Strip(raw);
    assert line != "" && line[0] == '#' ==> line == ['#'] + line[1..];
  }

  /** Lines outside any entry that start none, and lines without a colon inside one, are skipped too. */
  lemma {:induction false} LooseLineSkipped(st: State, raw: string)
    requires !IsItem(raw) && (st.current == None || ':' !in Strip(raw))
    ensures Step(st, raw) == Some(st)
  {
    IndexOfPresent(Strip(raw), ':');
  }

  // ---------------------------------------------------------------- printing and reading back

  /** One `key: value`, with the quote that surrounds the value: none, or either of the two. */
  datatype Printed = Printed(key: string, value: string, quote: string)

  type Pairs = seq<Printed>

  function ToRecord(ps: Pairs): Record {
    if ps == [] then map[] else ToRecord(ps[..|ps| - 1])[ps[|ps| - 1].key := ps[|ps| - 1].value]
  }

  function Records(recs: seq<Pairs>): seq<Record> {
    seq(|recs|, i requires 0 <= i < |recs| => ToRecord(recs[i]))
  }

  /** The entry maps each key to its last value. */
  lemma {:induction false} RecordFields(ps: Pairs, i: nat)
    requires i < |ps| && forall j :: i < j < |ps| ==> ps[j].key != ps[i].key
    ensures ps[i].key in ToRecord(ps) && ToRecord(ps)[ps[i].key] == ps[i].value
    decreases |ps|
  {
    if i < |ps| - 1 {
      RecordFields(ps[..|ps| - 1], i);
    }
  }

  predicate IsQuote(q: string) {
    q == "" || q == "\"" || q == "'"
  }

  function Entry(p: Printed): string {
    p.key + ":" + Tail(p.quote + p.value + p.quote)
  }

  function Tail(text: string): string {
    if text == "" then "" else " " + text
  }

  function PrintRecord(ps: Pairs): seq<string> {
    if ps == [] then []
    else if |ps| == 1 then ["- " + Entry(ps[0])]
    else PrintRecord(ps[..|ps| - 1]) + [Entry(ps[|ps| - 1])]
  }

  function PrintAll(recs: seq<Pairs>): seq<string> {
    if recs == [] then [] else PrintRecord(recs[0]) + PrintAll(recs[1..])
  }

  function ToText(eol: string, lines: seq<string>): string {
    if lines == [] then "" else lines[0] + eol + ToText(eol, lines[1..])
  }

  ghost predicate PlainKey(k: string) {
    Trimmed(k) && ':' !in k && OneLine(k)
  }

  /** A value can be quoted in any case; without quotes it must be trimmed and not look quoted. */
  ghost predicate PrintableEntry(p: Printed) {
    && PlainKey(p.key) && OneLine(p.value) && IsQuote(p.quote)
    && (p.quote == "" ==> Trimmed(p.value) && !Wrapped(p.value))
  }

  /** A key that can open a line of its own without being taken for something else. */
  ghost predicate LineKey(k: string) {
    k != "version" && k != "exceptions" && !StartsWith(k, "#") && !StartsWith(k, "- ")
  }

  ghost predicate Printable(ps: Pairs) {
    && ps != []
    && (forall i :: 0 <= i < |ps| ==> PrintableEntry(ps[i]))
    && (forall i :: 1 <= i < |ps| ==> LineKey(ps[i].key))
  }

  lemma {:induction false} PrintablePrefix(ps: Pairs)
    requires Printable(ps)
    ensures PrintableEntry(ps[|ps| - 1])
    ensures |ps| > 1 ==> Printable(ps[..|ps| - 1]) && LineKey(ps[|ps| - 1].key)
  {
  }

  lemma {:induction false} EntryTrimmed(p: Printed)
    requires PrintableEntry(p)
    ensures Trimmed(Entry(p)) && Entry(p) != ""
  {
    var e, text := Entry(p), p.quote + p.value + p.quote;
    assert e[0] == if p.key == "" then ':' else p.key[0];
    assert e[|e| - 1] == if text == "" then ':' else text[|text| - 1];
  }

  lemma {:induction false} TextTrimmed(p: Printed)
    requires PrintableEntry(p)
    ensures Trimmed(p.quote + p.value + p.quote) && Unquote(p.quote + p.value + p.quote) == p.value
  {
    var text := p.quote + p.value + p.quote;
    UnquoteExact(text);
    if p.quote == "" {
      assert text == p.value;
    } else {
      assert text[0] == p.quote[0] && text[|text| - 1] == p.quote[0] && text[1..|text| - 1] == p.value;
    }
  }

  lemma {:induction false} SplitEntry(p: Printed)
    requires PrintableEntry(p)
    ensures SplitKV(Entry(p)) == Some((p.key, p.value))
    ensures IndexOf(Entry(p), ':') == |p.key| < |Entry(p)|
  {
    var text := p.quote + p.value + p.quote;
    TextTrimmed(p);
    assert PadsAt(p.key, p.key, 0);
    assert PadsAt(Tail(text), text, if text == "" then 0 else 1);
    SplitPadded(p.key, Tail(text), p.key, text);
  }

  lemma {:induction false} FirstLine(st: State, p: Printed)
    requires PrintableEntry(p)
    ensures IsItem("- " + Entry(p))
    ensures Step(st, "- " + Entry(p)) == Some(State(Flush(st), Some(map[p.key := p.value])))
  {
    var line := "- " + Entry(p);
    EntryTrimmed(p);
    assert line[0] == '-' && line[1] == ' ' && line[|line| - 1] == Entry(p)[|Entry(p)| - 1];
    StripTrimmed(line);
    assert line[2..] == Entry(p);
    StripTrimmed(Entry(p));
    ItemHasBody(line);
    SplitEntry(p);
  }

  lemma {:induction false} NotReserved(k: string, tail: string)
    requires PlainKey(k) && LineKey(k)
    ensures !Ignored(k + ":" + tail) && !StartsWith(k + ":" + tail, "- ")
  {
    var line := k + ":" + tail;
    assert line[0] == if k == "" then ':' else k[0];
    assert |k| == 1 ==> line[1] == ':';
    assert |k| > 1 ==> line[1] == k[1];
    OnlyThatKey(k, tail, "version");
    OnlyThatKey(k, tail, "exceptions");
  }

  lemma {:induction false} OnlyThatKey(k: string, tail: string, word: string)
    requires ':' !in k && ':' !in word
    ensures StartsWith(k + ":" + tail, word + ":") ==> k == word
  {
    assert (k + ":" + tail)[0] == if k == "" then ':' else k[0];
    assert (word + ":")[0] == if word == "" then ':' else word[0];
    if k != "" && word != "" {
      assert k == [k[0]] + k[1..] && word == [word[0]] + word[1..];
      assert (k + ":" + tail)[1..] == k[1..] + ":" + tail;
      assert (word + ":")[1..] == word[1..] + ":";
      OnlyThatKey(k[1..], tail, word[1..]);
    }
  }

  lemma {:induction false} NextLine(st: State, p: Printed)
    requires PrintableEntry(p) && LineKey(p.key) && st.current.Some?
    ensures Step(st, Entry(p)) == Some(State(st.done, Some(st.current.value[p.key := p.value])))
  {
    EntryTrimmed(p);
    StripTrimmed(Entry(p));
    NotReserved(p.key, Tail(p.quote + p.value + p.quote));
    SplitEntry(p);
  }

  lemma {:induction false} RunRecord(st: State, ps: Pairs)
    requires Printable(ps)
    ensures PrintRecord(ps) != [] && IsItem(PrintRecord(ps)[0])
    ensures Run(st, PrintRecord(ps)) == Some(State(Flush(st), Some(ToRecord(ps))))
    decreases |ps|
  {
    var n := |ps| - 1;
    PrintablePrefix(ps);
    if n == 0 {
      FirstLine(st, ps[0]);
      assert ToRecord(ps[..0]) == map[];
      assert PrintRecord(ps)[1..] == [];
    } else {
      RunRecord(st, ps[..n]);
      RunAppend(st, PrintRecord(ps[..n]), [Entry(ps[n])]);
      var mid := State(Flush(st), Some(ToRecord(ps[..n])));
      NextLine(mid, ps[n]);
      assert [Entry(ps[n])][1..] == [];
    }
  }

  /** Printing entries as YAML items and parsing the lines gives the same entries back. */
  lemma {:induction false} RoundTripLines(recs: seq<Pairs>)
    requires forall ps <- recs :: Printable(ps)
    ensures Parse(PrintAll(recs)) == Some(Records(recs))
    decreases |recs|
  {
    if recs != [] {
      var ps, rest := recs[0], recs[1..];
      ParsePrinted(ps);
      RoundTripLines(rest);
      assert Records(recs) == [ToRecord(ps)] + Records(rest);
      if rest == [] {
        assert PrintAll(recs) == PrintRecord(ps) && Records(recs) == [ToRecord(ps)];
      } else {
        RunRecord(START, rest[0]);
        assert PrintAll(rest)[0] == PrintRecord(rest[0])[0];
        ParseAppend(PrintRecord(ps), PrintAll(rest));
      }
    }
  }

  lemma {:induction false} ParsePrinted(ps: Pairs)
    requires Printable(ps)
    ensures Parse(PrintRecord(ps)) == Some([ToRecord(ps)])
  {
    RunRecord(START, ps);
    RecordFields(ps, |ps| - 1);
    var end := State(Flush(START), Some(ToRecord(ps)));
    assert Flush(end) == [ToRecord(ps)];
  }

  // ---------------------------------------------------------------- indentation, comments and headers

  /** The lines are the given ones with white space around them and neutral lines anywhere. */
  ghost predicate Dressed(plain: seq<string>, lines: seq<string>)
    decreases |lines|
  {
    if lines == [] then plain == []
    else
      || (Neutral(lines[0]) && Dressed(plain, lines[1..]))
      || (plain != [] && Strip(lines[0]) == Strip(plain[0]) && Dressed(plain[1..], lines[1..]))
  }

  lemma {:induction false} DressedRuns(st: State, plain: seq<string>, lines: seq<string>)
    requires Dressed(plain, lines)
    ensures Run(st, lines) == Run(st, plain)
    decreases |lines|
  {
    if lines != [] {
      if Neutral(lines[0]) && Dressed(plain, lines[1..]) {
        NeutralSkipped(st, lines[0]);
        DressedRuns(st, plain, lines[1..]);
      } else {
        StepStrips(st, lines[0]);
        StepStrips(st, plain[0]);
        if Step(st, lines[0]).Some? {
          DressedRuns(Step(st, lines[0]).value, plain[1..], lines[1..]);
        }
      }
    }
  }

  /** A last line that has no terminator; the empty one is no line. */
  function Ending(last: string): seq<string> {
    if last == "" then [] else [last]
  }

  lemma TextSplit(eol: string, lines: seq<string>, last: string)
    requires lines != []
    ensures ToText(eol, lines) + last == lines[0] + eol + (ToText(eol, lines[1..]) + last)
  {
    var a, b := lines[0] + eol, ToText(eol, lines[1..]);
    assert (a + b) + last == a + (b + last);
  }

  lemma {:induction false} ReadBack(eol: string, lines: seq<string>, last: string)
    requires IsEol(eol) && AllOneLine(lines) && OneLine(last)
    ensures ReadLines(ToText(eol, lines) + last) == lines + Ending(last)
  {
    if lines == [] {
      ReadLast(last);
      assert ToText(eol, lines) + last == last && lines + Ending(last) == Ending(last);
    } else {
      TextSplit(eol, lines, last);
      TextStart(eol, lines[1..], last);
      assert lines[0] in lines && AllOneLine(lines[1..]);
      ReadBack(eol, lines[1..], last);
      ReadLine(lines[0], eol, ToText(eol, lines[1..]) + last);
      HeadFirst(lines, Ending(last));
    }
  }

  lemma HeadFirst(lines: seq<string>, ending: seq<string>)
    requires lines != []
    ensures [lines[0]] + (lines[1..] + ending) == lines + ending
  {
  }

  /** A text whose lines end in a carriage return does not start with a line feed. */
  lemma {:induction false} TextStart(eol: string, lines: seq<string>, last: string)
    requires IsEol(eol) && AllOneLine(lines) && OneLine(last)
    ensures
      var text := ToText(eol, lines) + last;
      eol == "\r" ==> text == "" || text[0] != '\n'
  {
    if lines == [] {
      assert ToText(eol, lines) + last == last;
    } else {
      var first := lines[0];
      assert first in lines;
      if first != "" {
        assert first[0] in first && ToText(eol, lines)[0] == first[0];
      } else {
        assert ToText(eol, lines)[0] == eol[0];
      }
    }
  }

  /** The same for the text of a whole file, with any of the three line terminators, with or without one at the
      end, each value unquoted or in either quote, any indentation, and blank lines, comments and header lines
      anywhere. */
  lemma {:induction false} RoundTripText(eol: string, recs: seq<Pairs>, lines: seq<string>, last: string)
    requires IsEol(eol) && (forall ps <- recs :: Printable(ps))
    requires Dressed(PrintAll(recs), lines + Ending(last)) && AllOneLine(lines) && OneLine(last)
    ensures Parse(ReadLines(ToText(eol, lines) + last)) == Some(Records(recs))
  {
    ReadBack(eol, lines, last);
    RoundTripLines(recs);
    DressedRuns(START, PrintAll(recs), lines + Ending(last));
  }

  /** Printed lines are such lines themselves. */
  lemma {:induction false} PrintedDressed(recs: seq<Pairs>)
    requires forall ps <- recs :: Printable(ps)
    ensures Dressed(PrintAll(recs), PrintAll(recs)) && AllOneLine(PrintAll(recs))
  {
    DressedItself(PrintAll(recs));
    PrintedAll(recs);
  }

  lemma {:induction false} DressedItself(lines: seq<string>)
    ensures Dressed(lines, lines)
  {
    if lines != [] {
      DressedItself(lines[1..]);
    }
  }

  lemma EntryOneLine(p: Printed)
    requires PrintableEntry(p)
    ensures OneLine(Entry(p)) && OneLine("- " + Entry(p))
  {
    assert OneLine(p.quote) && OneLine(p.quote + p.value + p.quote);
  }

  ghost predicate AllOneLine(lines: seq<string>) {
    forall l <- lines :: OneLine(l)
  }

  lemma AllOneLineAppend(a: seq<string>, b: seq<string>)
    requires AllOneLine(a) && AllOneLine(b)
    ensures AllOneLine(a + b)
  {
  }

  lemma {:induction false} PrintedLines(ps: Pairs)
    requires Printable(ps)
    ensures AllOneLine(PrintRecord(ps))
    decreases |ps|
  {
    PrintablePrefix(ps);
    EntryOneLine(ps[|ps| - 1]);
    if |ps| > 1 {
      PrintedLines(ps[..|ps| - 1]);
      AllOneLineAppend(PrintRecord(ps[..|ps| - 1]), [Entry(ps[|ps| - 1])]);
    }
  }

  lemma {:induction false} PrintedAll(recs: seq<Pairs>)
    requires forall ps <- recs :: Printable(ps)
    ensures AllOneLine(PrintAll(recs))
    decreases |recs|
  {
    if recs != [] {
      PrintedLines(recs[0]);
      PrintedAll(recs[1..]);
      AllOneLineAppend(PrintRecord(recs[0]), PrintAll(recs[1..]));
    }
  }
}
