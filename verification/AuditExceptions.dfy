/**
 The gate on audit exceptions: the parser of the exception list, the findings read from an audit
 report, and the meaning of the verdict.
 */
module AuditExceptions {
  import opened Sequences
  import opened Strings
  import opened Wrappers

  // ---------------------------------------------------------------- text

  function LowerChar(c: char): char {
    if 'A' <= c <= 'Z' then c - 'A' + 'a' else c
  }

  function Lower(s: string): string {
    seq(|s|, i requires 0 <= i < |s| => LowerChar(s[i]))
  }

  /** One letter in its two cases. */
  predicate TwoCases(upper: char, lower: char) {
    exists k :: 0 <= k < 26 && upper == UPPER[k] && lower == LOWER[k]
  }

  lemma UpperAt(k: nat)
    requires k < 26
    ensures UPPER[k] as int == 'A' as int + k
  {
  }

  lemma LowerAt(k: nat)
    requires k < 26
    ensures LOWER[k] as int == 'a' as int + k
  {
  }

  lemma CasesOf(upper: char, lower: char)
    ensures TwoCases(upper, lower) <==> 'A' <= upper <= 'Z' && LowerChar(upper) == lower
  {
    hide UPPER, LOWER;
    assert |UPPER| == |LOWER| == 26 by { AlphabetsAreLong(); }
    if 'A' <= upper <= 'Z' {
      var k := upper as int - 'A' as int;
      UpperAt(k);
      LowerAt(k);
    }
    if k :| 0 <= k < 26 && upper == UPPER[k] && lower == LOWER[k] {
      UpperAt(k);
      LowerAt(k);
    }
  }

  lemma AlphabetsAreLong()
    ensures |UPPER| == 26 && |LOWER| == 26
  {
  }

  /** Lowering tells two texts apart exactly when they differ in more than the case of letters. */
  lemma LowerFoldsCase(a: string, b: string)
    ensures Lower(a) == Lower(b) <==>
            && |a| == |b|
            && forall i :: 0 <= i < |a| ==> a[i] == b[i] || TwoCases(a[i], b[i]) || TwoCases(b[i], a[i])
  {
    if |a| == |b| {
      forall i | 0 <= i < |a|
        ensures LowerChar(a[i]) == LowerChar(b[i]) <==> a[i] == b[i] || TwoCases(a[i], b[i]) || TwoCases(b[i], a[i])
      {
        CasesOf(a[i], b[i]);
        CasesOf(b[i], a[i]);
      }
      hide TwoCases, LowerChar;
      if Lower(a) == Lower(b) {
        forall i | 0 <= i < |a| ensures LowerChar(a[i]) == LowerChar(b[i]) {
          assert Lower(a)[i] == Lower(b)[i];
        }
      }
    }
  }

  /** What stands before the first colon, and what after it. */
  function SplitColon(s: string): (r: Option<(string, string)>)
    ensures r.Some? <==> ':' in s
    ensures r.Some? ==> s == r.value.0 + ":" + r.value.1 && ':' !in r.value.0
  {
    if s == "" then None
    else if s[0] == ':' then Some(("", s[1..]))
    else match SplitColon(s[1..])
         case None => None
         case Some((key, value)) => Some(([s[0]] + key, value))
  }

  predicate QuotedBy(s: string, quote: char) {
    s != "" && s[0] == quote && s[|s| - 1] == quote
  }

  /** A text in quotes loses them; a lone quote mark counts as both of its quotes. */
  function Unquote(s: string): string {
    if QuotedBy(s, '"') || QuotedBy(s, '\'') then if |s| == 1 then "" else s[1..|s| - 1]
    else s
  }

  /** `split_kv`, which raises when there is no colon. */
  function SplitKv(line: string): Option<(string, string)> {
    match SplitColon(line)
    case None => None
    case Some((key, value)) => Some((Strip(key), Unquote(Strip(value))))
  }

  // ---------------------------------------------------------------- the exception list

  type Exception = map<string, string>

  predicate Starts(s: string, prefix: string) {
    prefix <= s
  }

  predicate IsSkipped(line: string) {
    line == "" || line[0] == '#' || Starts(line, "version:") || Starts(line, "exceptions:")
  }

  /** The items read so far, the last of them still open; nothing is open before the first item. */
  datatype ParseState = ParseState(done: seq<Exception>, current: Option<Exception>)
  {
    function Close(): seq<Exception> {
      if current.Some? && current.value != map[] then done + [current.value] else done
    }

    function Put(key: string, value: string): ParseState
      requires current.Some?
    {
      this.(current := Some(current.value[key := value]))
    }
  }

  datatype ParseError = NoColon(line: string)

  function ParseLine(state: ParseState, raw: string): Result<ParseState, ParseError> {
    var line := Strip(raw);
    if IsSkipped(line) then Ok(state)
    else if Starts(line, "- ") then
      var item := ParseState(state.Close(), Some(map[]));
      var rest := Strip(line[2..]);
      if rest == "" then Ok(item)
      else match SplitKv(rest)
           case None => Err(NoColon(rest))
           case Some((key, value)) => Ok(item.Put(key, value))
    else if state.current.None? then Ok(state)
    else match SplitKv(line)
         case None => Ok(state)
         case Some((key, value)) => Ok(state.Put(key, value))
  }

  function ParseFrom(state: ParseState, lines: seq<string>): Result<seq<Exception>, ParseError>
    decreases |lines|
  {
    if lines == [] then Ok(state.Close())
    else match ParseLine(state, lines[0])
         case Err(e) => Err(e)
         case Ok(next) => ParseFrom(next, lines[1..])
  }

  const START := ParseState([], None)

  /** `parse_exceptions`. */
  method ParseExceptions(lines: seq<string>) returns (r: Result<seq<Exception>, ParseError>)
    ensures r == ParseFrom(START, lines)
  {
    var exceptions: seq<Exception>, current: Option<Exception> := [], None;
    for k := 0 to |lines|
      invariant ParseFrom(ParseState(exceptions, current), lines[k..]) == ParseFrom(START, lines)
    {
      assert lines[k..][0] == lines[k] && lines[k..][1..] == lines[k + 1..];
      var line := Strip(lines[k]);
      if line == "" || line[0] == '#' || Starts(line, "version:") || Starts(line, "exceptions:") {
        continue;
      }
      if Starts(line, "- ") {
        if current.Some? && current.value != map[] {
          exceptions := exceptions + [current.value];
        }
        current := Some(map[]);
        line := Strip(line[2..]);
        if line != "" {
          var kv := SplitKv(line);
          if kv.None? {
            return Err(NoColon(line));
          }
          current := Some(current.value[kv.value.0 := kv.value.1]);
        }
        continue;
      }
      if current.Some? && ':' in line {
        var kv := SplitKv(line);
        current := Some(current.value[kv.value.0 := kv.value.1]);
      }
    }
    if current.Some? && current.value != map[] {
      exceptions := exceptions + [current.value];
    }
    r := Ok(exceptions);
  }

  // ---------------------------------------------------------------- reading what was written

  /** A key the list can hold: trimmed, without a colon, and not read as something else. */
  predicate IsFieldKey(key: string) {
    && key != "" && !IsSpace(key[0]) && !IsSpace(key[|key| - 1]) && ':' !in key
    && key[0] != '#' && !Starts(key, "- ") && key != "version" && key != "exceptions"
  }

  type Fields = seq<(string, string)>

  predicate IsItem(fields: Fields) {
    fields != [] && forall f <- fields :: IsFieldKey(f.0)
  }

  function FieldText(f: (string, string)): string {
    f.0 + ":" + (" " + InQuotes(f.1))
  }

  function InQuotes(text: string): string {
    "\"" + text + "\""
  }

  /** An item with its values in double quotes, one field a line. */
  function ItemLines(fields: Fields): seq<string> {
    seq(|fields|, i requires 0 <= i < |fields| => (if i == 0 then "- " else "  ") + FieldText(fields[i]))
  }

  function AllLines(items: seq<Fields>): seq<string> {
    if items == [] then [] else ItemLines(items[0]) + AllLines(items[1..])
  }

  function ToException(fields: Fields): Exception {
    if fields == [] then map[] else ToException(fields[..|fields| - 1])[fields[|fields| - 1].0 := fields[|fields| - 1].1]
  }

  function ToExceptions(items: seq<Fields>): seq<Exception> {
    seq(|items|, i requires 0 <= i < |items| => ToException(items[i]))
  }

  lemma StripTrimmed(s: string)
    requires s != "" && !IsSpace(s[0]) && !IsSpace(s[|s| - 1])
    ensures Strip(s) == s && Strip("  " + s) == s && Strip(" " + s) == s
  {
    assert SpaceRun(s) == 0;
    assert (" " + s)[1..] == s && SpaceRun(" " + s) == 1;
    assert ("  " + s)[1..] == " " + s && SpaceRun("  " + s) == 2 && ("  " + s)[2..] == s;
  }

  lemma {:induction false} SplitAtFirst(key: string, value: string)
    requires ':' !in key
    ensures SplitColon(key + ":" + value) == Some((key, value))
  {
    if key == "" {
      assert key + ":" + value == ":" + value;
    } else {
      assert (key + ":" + value)[0] == key[0] && (key + ":" + value)[1..] == key[1..] + ":" + value;
      assert key == [key[0]] + key[1..];
      SplitAtFirst(key[1..], value);
    }
  }

  lemma FieldIsRead(f: (string, string))
    requires IsFieldKey(f.0)
    ensures SplitKv(FieldText(f)) == Some(f)
    ensures Strip(FieldText(f)) == FieldText(f) && Strip("  " + FieldText(f)) == FieldText(f)
  {
    hide Strip, Unquote, SplitColon;
    var quoted := InQuotes(f.1);
    assert FieldText(f) == f.0 + ":" + (" " + quoted);
    SplitAtFirst(f.0, " " + quoted);
    StripTrimmed(f.0);
    StripTrimmed(quoted);
    assert FieldText(f)[0] == f.0[0] && FieldText(f)[|FieldText(f)| - 1] == '"';
    StripTrimmed(FieldText(f));
    UnquoteQuoted(f.1);
  }

  lemma UnquoteQuoted(text: string)
    ensures Unquote(InQuotes(text)) == text
  {
    assert InQuotes(text)[1..|InQuotes(text)| - 1] == text;
  }

  /** A value is read without its quotes, of either kind. */
  lemma QuotedValueIsRead(key: string, text: string, quote: char)
    requires IsFieldKey(key) && (quote == '"' || quote == '\'')
    ensures SplitKv(key + ":" + (" " + ([quote] + text + [quote]))) == Some((key, text))
    ensures SplitKv(key + ":" + (" " + [quote])) == Some((key, ""))
  {
    var quoted := [quote] + text + [quote];
    assert quoted[0] == quote && quoted[|quoted| - 1] == quote && quoted[1..|quoted| - 1] == text;
    hide SplitKv, IsFieldKey;
    ValueIsRead(key, quoted);
    ValueIsRead(key, [quote]);
  }

  /** Without a pair of quotes it is read as it is. */
  lemma BareValueIsRead(key: string, text: string)
    requires IsFieldKey(key) && text != "" && !IsSpace(text[0]) && !IsSpace(text[|text| - 1])
    requires text[0] == text[|text| - 1] ==> text[0] != '"' && text[0] != '\''
    ensures SplitKv(key + ":" + (" " + text)) == Some((key, text))
  {
    hide SplitKv, IsFieldKey;
    ValueIsRead(key, text);
  }

  lemma ValueIsRead(key: string, value: string)
    requires IsFieldKey(key) && value != "" && !IsSpace(value[0]) && !IsSpace(value[|value| - 1])
    ensures SplitKv(key + ":" + (" " + value)) == Some((key, Unquote(value)))
  {
    hide Strip, SplitColon, Unquote;
    StripTrimmed(key);
    StripTrimmed(value);
    SplitAtFirst(key, " " + value);
  }

  /** Blank lines, comments and the two headers can stand anywhere, and so can a line without a colon that
      starts no item. */
  lemma {:induction false} NoiseDoesNotMatter(state: ParseState, before: seq<string>, raw: string, after: seq<string>)
    requires var line := Strip(raw);
             || line == "" || "#" <= line || "version:" <= line || "exceptions:" <= line
             || (':' !in line && !("- " <= line))
    ensures ParseFrom(state, before + [raw] + after) == ParseFrom(state, before + after)
    decreases |before|
  {
    hide Strip;
    if before == [] {
      NoiseIsSkipped(state, raw);
      assert (before + [raw] + after)[0] == raw && (before + [raw] + after)[1..] == after && before + after == after;
    } else {
      hide ParseLine;
      assert (before + [raw] + after)[0] == before[0] && (before + [raw] + after)[1..] == before[1..] + [raw] + after;
      assert (before + after)[0] == before[0] && (before + after)[1..] == before[1..] + after;
      if ParseLine(state, before[0]).Ok? {
        NoiseDoesNotMatter(ParseLine(state, before[0]).value, before[1..], raw, after);
      }
    }
  }

  lemma NoiseIsSkipped(state: ParseState, raw: string)
    requires var line := Strip(raw);
             || line == "" || "#" <= line || "version:" <= line || "exceptions:" <= line
             || (':' !in line && !("- " <= line))
    ensures ParseLine(state, raw) == Ok(state)
  {
    hide Strip;
    assert "#" <= Strip(raw) <==> Strip(raw) != "" && Strip(raw)[0] == '#';
  }

  /** A line before the first item says nothing unless it starts one; an item line needs a colon. */
  lemma OutsideItems(raw: string, after: seq<string>, state: ParseState)
    ensures !("- " <= Strip(raw)) ==> ParseFrom(START, [raw] + after) == ParseFrom(START, after)
    ensures "- " <= Strip(raw) && ':' !in Strip(raw) ==> ParseFrom(state, [raw] + after).Err? || Strip(Strip(raw)[2..]) == ""
  {
    hide Strip;
    assert ([raw] + after)[0] == raw && ([raw] + after)[1..] == after;
    assert START.current.None?;
    if "- " <= Strip(raw) && ':' !in Strip(raw) {
      var rest := Strip(raw)[2..];
      assert ':' !in rest;
      StripKeepsOut(rest, ':');
      assert Strip(raw)[0] == '-';
    }
  }

  lemma {:induction false} StripRightKeepsOut(s: string, c: char)
    requires c !in s
    ensures c !in StripRight(s)
  {
    if s != "" && IsSpace(s[|s| - 1]) {
      StripRightKeepsOut(s[..|s| - 1], c);
    }
  }

  lemma StripKeepsOut(s: string, c: char)
    requires c !in s
    ensures c !in Strip(s)
  {
    StripRightKeepsOut(StripLeft(s), c);
  }

  lemma FieldLineIsNotSkipped(f: (string, string))
    requires IsFieldKey(f.0)
    ensures !IsSkipped(FieldText(f)) && !Starts(FieldText(f), "- ")
  {
    var key, line := f.0, FieldText(f);
    assert line[0] == key[0] && line[1] == if |key| > 1 then key[1] else ':';
    if Starts(line, "version:") {
      SameKey("version", key, line);
    }
    if Starts(line, "exceptions:") {
      SameKey("exceptions", key, line);
    }
  }

  /** A line has one first colon. */
  lemma SameKey(a: string, b: string, line: string)
    requires ':' !in a && ':' !in b && a + ":" <= line && b + ":" <= line
    ensures a == b
  {
    hide SplitColon;
    SplitAtFirst(a, line[|a| + 1..]);
    SplitAtFirst(b, line[|b| + 1..]);
    assert line == a + ":" + line[|a| + 1..] == b + ":" + line[|b| + 1..];
  }

  lemma FirstLineIsRead(state: ParseState, f: (string, string))
    requires IsFieldKey(f.0)
    ensures ParseLine(state, "- " + FieldText(f)) == Ok(ParseState(state.Close(), Some(map[f.0 := f.1])))
  {
    var line := "- " + FieldText(f);
    FirstLineStarts(f);
    FieldIsRead(f);
    assert line[2..] == FieldText(f);
    hide Strip, SplitKv, FieldText, IsSkipped, Starts;
    assert FieldText(f) != "" by { FieldLineIsNotSkipped(f); EmptyIsSkipped(); }
  }

  lemma EmptyIsSkipped()
    ensures IsSkipped("")
  {
  }

  lemma FirstLineStarts(f: (string, string))
    requires IsFieldKey(f.0)
    ensures var line := "- " + FieldText(f); Strip(line) == line && !IsSkipped(line) && Starts(line, "- ")
  {
    var line := "- " + FieldText(f);
    hide Strip;
    assert line[0] == '-' && line[|line| - 1] == '"';
    StripTrimmed(line);
  }

  lemma LaterLineIsRead(state: ParseState, f: (string, string))
    requires IsFieldKey(f.0) && state.current.Some?
    ensures ParseLine(state, "  " + FieldText(f)) == Ok(state.Put(f.0, f.1))
  {
    FieldIsRead(f);
    FieldLineIsNotSkipped(f);
    hide Strip, SplitKv, FieldText, IsSkipped, Starts;
  }

  /** Reading the lines of an item from its field `from` on. */
  lemma {:induction false} ItemIsRead(state: ParseState, fields: Fields, from: nat, more: seq<string>)
    requires IsItem(fields) && from <= |fields|
    requires from > 0 ==> state.current == Some(ToException(fields[..from]))
    ensures ParseFrom(state, ItemLines(fields)[from..] + more) ==
            ParseFrom(ParseState(if from > 0 then state.done else state.Close(), Some(ToException(fields))), more)
            || from == 0 == |fields|
    decreases |fields| - from
  {
    hide ParseLine, FieldText, IsFieldKey;
    var lines := ItemLines(fields)[from..] + more;
    if from == |fields| {
      assert lines == more && fields[..from] == fields;
      return;
    }
    var f := fields[from];
    assert f in fields;
    assert lines[0] == (if from == 0 then "- " else "  ") + FieldText(f);
    assert lines[1..] == ItemLines(fields)[from + 1..] + more;
    assert fields[..from + 1][..from] == fields[..from];
    if from == 0 {
      FirstLineIsRead(state, f);
      assert ToException(fields[..1]) == map[f.0 := f.1] by { assert fields[..0] == []; }
      ItemIsRead(ParseState(state.Close(), Some(map[f.0 := f.1])), fields, 1, more);
    } else {
      LaterLineIsRead(state, f);
      ItemIsRead(state.Put(f.0, f.1), fields, from + 1, more);
    }
  }

  lemma {:induction false} ToExceptionIsNotEmpty(fields: Fields)
    requires fields != []
    ensures ToException(fields) != map[]
  {
    assert fields[|fields| - 1].0 in ToException(fields);
  }

  lemma {:induction false} ItemsAreRead(state: ParseState, items: seq<Fields>)
    requires forall fields <- items :: IsItem(fields)
    ensures ParseFrom(state, AllLines(items)) == Ok(state.Close() + ToExceptions(items))
    decreases |items|
  {
    if items == [] {
      assert state.Close() + ToExceptions(items) == state.Close();
      assert AllLines(items) == [];
    } else {
      hide ParseLine, IsItem, ToException, ItemLines, ParseFrom, AllLines, ToExceptions;
      var next := ParseState(state.Close(), Some(ToException(items[0])));
      LinesOfItems(items);
      ItemReadWhole(state, items[0], AllLines(items[1..]));
      ItemsAreRead(next, items[1..]);
      assert next.Close() == state.Close() + [ToException(items[0])];
      AppendLater(state.Close(), ToException(items[0]), ToExceptions(items[1..]));
    }
  }

  lemma AppendLater(before: seq<Exception>, e: Exception, after: seq<Exception>)
    ensures (before + [e]) + after == before + ([e] + after)
  {
  }

  lemma LinesOfItems(items: seq<Fields>)
    requires items != []
    ensures AllLines(items) == ItemLines(items[0]) + AllLines(items[1..])
    ensures ToExceptions(items) == [ToException(items[0])] + ToExceptions(items[1..])
  {
    hide ToException;
  }

  lemma ItemReadWhole(state: ParseState, fields: Fields, more: seq<string>)
    requires IsItem(fields)
    ensures ParseFrom(state, ItemLines(fields) + more) == ParseFrom(ParseState(state.Close(), Some(ToException(fields))), more)
    ensures ToException(fields) != map[]
  {
    assert ItemLines(fields)[0..] == ItemLines(fields);
    ItemIsRead(state, fields, 0, more);
    ToExceptionIsNotEmpty(fields);
  }

  lemma WrittenLinesAreReadBack(items: seq<Fields>)
    requires forall fields <- items :: IsItem(fields)
    ensures ParseFrom(START, AllLines(items)) == Ok(ToExceptions(items))
  {
    ItemsAreRead(START, items);
    assert START.Close() == [] && [] + ToExceptions(items) == ToExceptions(items);
  }

  // ---------------------------------------------------------------- the file

  predicate IsBreak(c: char) {
    c == '\n' || c == '\r'
  }

  predicate NoBreak(s: string) {
    forall c <- s :: !IsBreak(c)
  }

  function BreakAt(text: string): (n: nat)
    ensures n <= |text|
  {
    if text == "" || IsBreak(text[0]) then 0 else 1 + BreakAt(text[1..])
  }

  lemma {:induction false} BreakIsFirst(text: string)
    ensures NoBreak(text[..BreakAt(text)]) && (BreakAt(text) < |text| ==> IsBreak(text[BreakAt(text)]))
  {
    if text != "" && !IsBreak(text[0]) {
      BreakIsFirst(text[1..]);
      assert text[..BreakAt(text)] == [text[0]] + text[1..][..BreakAt(text[1..])];
    }
  }

  /** The lines that iterating over the file yields, without their ends, which stripping removes: a
      line ends at a line feed, a carriage return, or the two in this order. */
  function FileLines(text: string): seq<string>
    decreases |text|
  {
    if text == "" then [] else
    var n := BreakAt(text);
    if n == |text| then [text]
    else if text[n] == '\r' && n + 1 < |text| && text[n + 1] == '\n' then [text[..n]] + FileLines(text[n + 2..])
    else [text[..n]] + FileLines(text[n + 1..])
  }

  function FileText(lines: seq<string>): string {
    if lines == [] then "" else lines[0] + "\n" + FileText(lines[1..])
  }

  lemma {:induction false} BreakBehind(line: string, rest: string)
    requires NoBreak(line)
    ensures BreakAt(line + "\n" + rest) == |line|
  {
    if line == "" {
      assert line + "\n" + rest == "\n" + rest;
    } else {
      assert line[0] in line && line[1..] <= line[1..];
      assert (line + "\n" + rest)[0] == line[0] && (line + "\n" + rest)[1..] == line[1..] + "\n" + rest;
      assert forall c <- line[1..] :: c in line;
      BreakBehind(line[1..], rest);
    }
  }

  lemma {:induction false} FileLinesOfText(lines: seq<string>)
    requires forall line <- lines :: NoBreak(line)
    ensures FileLines(FileText(lines)) == lines
    decreases |lines|
  {
    if lines != [] {
      var line, rest := lines[0], FileText(lines[1..]);
      BreakBehind(line, rest);
      assert line in lines;
      var text := line + "\n" + rest;
      assert text[|line|] == '\n' && text[..|line|] == line && text[|line| + 1..] == rest;
      hide NoBreak;
      FileLinesOfText(lines[1..]);
      assert lines == [line] + lines[1..];
    }
  }

  function TextWith(lines: seq<string>, end: string): string {
    if lines == [] then "" else lines[0] + end + TextWith(lines[1..], end)
  }

  lemma {:induction false} BreakAfter(line: string, rest: string)
    requires NoBreak(line) && rest != "" && IsBreak(rest[0])
    ensures BreakAt(line + rest) == |line|
  {
    if line == "" {
      assert line + rest == rest;
    } else {
      assert line[0] in line && (line + rest)[0] == line[0] && (line + rest)[1..] == line[1..] + rest;
      assert forall c <- line[1..] :: c in line;
      BreakAfter(line[1..], rest);
    }
  }

  /** A file has the same lines whichever of the three line ends it uses. */
  lemma {:induction false} LineEndsDoNotMatter(lines: seq<string>, end: string)
    requires (forall line <- lines :: NoBreak(line)) && (end == "\n" || end == "\r" || end == "\r\n")
    ensures FileLines(TextWith(lines, end)) == lines
    decreases |lines|
  {
    if lines != [] {
      var line, rest := lines[0], TextWith(lines[1..], end);
      assert line in lines;
      var text := line + end + rest;
      assert text == line + (end + rest);
      BreakAfter(line, end + rest);
      StartsWithoutLineFeed(lines[1..], end);
      assert text[|line|] == end[0] && text[..|line|] == line && text[|line| + |end|..] == rest;
      hide NoBreak;
      LineEndsDoNotMatter(lines[1..], end);
      assert lines == [line] + lines[1..];
    }
  }

  lemma StartsWithoutLineFeed(lines: seq<string>, end: string)
    requires (forall line <- lines :: NoBreak(line)) && (end == "\n" || end == "\r" || end == "\r\n")
    ensures end == "\r" && TextWith(lines, end) != "" ==> TextWith(lines, end)[0] != '\n'
  {
    if lines != [] && lines[0] != "" {
      assert lines[0] in lines && lines[0][0] in lines[0];
    }
  }

  lemma {:induction false} LinesHaveNoBreak(text: string)
    ensures forall line <- FileLines(text) :: NoBreak(line)
    decreases |text|
  {
    if text != "" {
      hide NoBreak;
      BreakIsFirst(text);
      var n := BreakAt(text);
      if n == |text| {
        assert text[..n] == text;
      } else {
        LinesHaveNoBreak(text[n + 1..]);
        if n + 1 < |text| {
          LinesHaveNoBreak(text[n + 2..]);
        }
      }
    }
  }

  predicate PlainException(e: Exception) {
    forall key <- e :: NoBreak(key) && NoBreak(e[key])
  }

  predicate PlainState(state: ParseState) {
    (forall e <- state.done :: PlainException(e)) && (state.current.Some? ==> PlainException(state.current.value))
  }

  lemma {:induction false} StripRightKeeps(s: string)
    ensures StripRight(s) <= s
  {
    if s != "" && IsSpace(s[|s| - 1]) {
      StripRightKeeps(s[..|s| - 1]);
    }
  }

  lemma StripKeepsPlain(s: string)
    requires NoBreak(s)
    ensures NoBreak(Strip(s))
  {
    StripRightKeeps(StripLeft(s));
    assert forall c <- Strip(s) :: c in StripLeft(s) && c in s;
  }

  lemma SplitKvIsPlain(line: string)
    requires NoBreak(line) && SplitKv(line).Some?
    ensures NoBreak(SplitKv(line).value.0) && NoBreak(SplitKv(line).value.1)
  {
    var (key, value) := SplitColon(line).value;
    assert (forall c <- key :: c in line) && forall c <- value :: c in line;
    StripKeepsPlain(key);
    StripKeepsPlain(value);
    assert forall c <- Unquote(Strip(value)) :: c in Strip(value);
  }

  lemma PlainSteps(state: ParseState)
    requires PlainState(state)
    ensures (forall e <- state.Close() :: PlainException(e)) && PlainState(ParseState(state.Close(), Some(map[])))
  {
    hide NoBreak;
  }

  lemma PutIsPlain(state: ParseState, key: string, value: string)
    requires PlainState(state) && state.current.Some? && NoBreak(key) && NoBreak(value)
    ensures PlainState(state.Put(key, value))
  {
    hide NoBreak;
  }

  lemma ParseLineIsPlain(state: ParseState, raw: string)
    requires PlainState(state) && NoBreak(raw)
    ensures ParseLine(state, raw).Ok? ==> PlainState(ParseLine(state, raw).value)
  {
    var line := Strip(raw);
    StripKeepsPlain(raw);
    if Starts(line, "- ") {
      assert forall c <- line[2..] :: c in line;
      StripKeepsPlain(line[2..]);
      hide Strip, SplitKv, NoBreak, IsSkipped, PlainState;
      PlainSteps(state);
      var item, rest := ParseState(state.Close(), Some(map[])), Strip(line[2..]);
      if SplitKv(rest).Some? {
        SplitKvIsPlain(rest);
        PutIsPlain(item, SplitKv(rest).value.0, SplitKv(rest).value.1);
      }
    } else {
      hide Strip, SplitKv, NoBreak, IsSkipped, PlainState;
      if SplitKv(line).Some? && state.current.Some? {
        SplitKvIsPlain(line);
        PutIsPlain(state, SplitKv(line).value.0, SplitKv(line).value.1);
      }
    }
  }

  /** Nothing read from lines holds a line break. */
  lemma {:induction false} ParsedIsPlain(state: ParseState, lines: seq<string>)
    requires PlainState(state) && forall line <- lines :: NoBreak(line)
    ensures ParseFrom(state, lines).Ok? ==> forall e <- ParseFrom(state, lines).value :: PlainException(e)
    decreases |lines|
  {
    if lines != [] {
      hide NoBreak, ParseLine, PlainState;
      ParseLineIsPlain(state, lines[0]);
      if ParseLine(state, lines[0]).Ok? {
        ParsedIsPlain(ParseLine(state, lines[0]).value, lines[1..]);
      }
    }
  }

  predicate DistinctNames(fields: Fields) {
    forall i, j :: 0 <= i < j < |fields| ==> fields[i].0 != fields[j].0
  }

  lemma {:induction false} FieldsAreHeld(fields: Fields)
    requires DistinctNames(fields)
    ensures forall f <- fields :: f.0 in ToException(fields) && ToException(fields)[f.0] == f.1
  {
    if fields != [] {
      var init := fields[..|fields| - 1];
      FieldsAreHeld(init);
      forall i | 0 <= i < |fields| ensures fields[i].0 in ToException(fields) && ToException(fields)[fields[i].0] == fields[i].1 {
        if i < |init| {
          assert init[i] in init && fields[i] == init[i];
        }
      }
    }
  }

  predicate PlainFields(fields: Fields) {
    forall f <- fields :: NoBreak(f.0) && NoBreak(f.1)
  }

  lemma {:induction false} AllLinesArePlain(items: seq<Fields>)
    requires forall fields <- items :: PlainFields(fields)
    ensures forall line <- AllLines(items) :: NoBreak(line)
    decreases |items|
  {
    if items != [] {
      assert items[0] in items;
      AllLinesArePlain(items[1..]);
      forall i | 0 <= i < |items[0]| ensures NoBreak(ItemLines(items[0])[i]) {
        assert items[0][i] in items[0];
      }
      hide NoBreak, ItemLines;
    }
  }

  /** A list written to a file with quoted values is read back as it was if and only if no name and no
      value holds a line break, whatever else the values hold. */
  lemma WrittenListIsReadBackIff(items: seq<Fields>)
    requires forall fields <- items :: IsItem(fields) && DistinctNames(fields)
    ensures ParseFrom(START, FileLines(FileText(AllLines(items)))) == Ok(ToExceptions(items)) <==>
            forall fields <- items :: PlainFields(fields)
  {
    hide NoBreak, ParseFrom, FileLines, FileText, AllLines, IsItem, DistinctNames, ToException;
    if forall fields <- items :: PlainFields(fields) {
      AllLinesArePlain(items);
      FileLinesOfText(AllLines(items));
      WrittenLinesAreReadBack(items);
    }
    var lines := FileLines(FileText(AllLines(items)));
    if ParseFrom(START, lines) == Ok(ToExceptions(items)) {
      LinesHaveNoBreak(FileText(AllLines(items)));
      ParsedIsPlain(START, lines);
      forall i | 0 <= i < |items| ensures PlainFields(items[i]) {
        assert items[i] in items && ToExceptions(items)[i] == ToException(items[i]);
        assert PlainException(ToException(items[i]));
        FieldsAreHeld(items[i]);
      }
    }
  }

  /** A value of two lines is not read back. */
  lemma TwoLineValueIsNotReadBack()
    ensures var items := [[("package", "a\nb")]];
            ParseFrom(START, FileLines(FileText(AllLines(items)))) != Ok(ToExceptions(items))
  {
    var fields := [("package", "a\nb")];
    assert "package"[0] == 'p' && "package" != "version" && "package" != "exceptions";
    assert IsItem(fields);
    assert "a\nb"[1] == '\n';
    assert !PlainFields(fields) by { assert fields[0] in fields && '\n' in "a\nb"; }
    assert fields in [fields];
    hide IsItem, PlainFields;
    WrittenListIsReadBackIff([fields]);
  }

  // ---------------------------------------------------------------- the findings of a report

  /** A JSON value that is absent or null, a text, or a number, given by its decimal form. */
  datatype Value = Null | Text(text: string) | Number(decimal: string)
  {
    predicate Truthy() {
      match this
      case Null => false
      case Text(t) => t != ""
      case Number(d) => d != "0"
    }

    function Or(other: Value): Value {
      if Truthy() then this else other
    }

    function Str(): Value {
      match this
      case Number(d) => Text(d)
      case _ => this
    }
  }

  datatype Advisory = Advisory(
    moduleName: Value, name: Value, severity: string, githubAdvisoryId: Value, url: Value, cves: seq<Value>,
    id: Value, title: Value, advisory: Value, overview: Value)

  datatype ViaItem =
    | Detail(githubAdvisoryId: Value, url: Value, source: Value, title: Value, name: Value)
    | Reference(text: string)
    | Other

  datatype Via = Items(items: seq<ViaItem>) | Single(text: string) | NoVia

  datatype Vulnerability = Vulnerability(name: string, severity: string, via: Via)

  /** The two shapes a report can have; a missing section is empty. */
  datatype Audit = Audit(advisories: seq<Advisory>, vulnerabilities: seq<Vulnerability>)

  datatype Finding = Finding(name: Value, severity: string, advisory: Value)

  function PickAdvisoryId(a: Advisory): Value {
    var cve := if a.cves == [] then Null else a.cves[0];
    a.githubAdvisoryId.Or(a.url.Or(cve.Or(a.id.Str().Or(a.title.Or(a.advisory.Or(a.overview))))))
  }

  function ItemId(item: ViaItem): Value {
    match item
    case Detail(gh, url, source, title, name) => gh.Or(url.Or(source.Or(title.Or(name))))
    case Reference(text) => Text(text)
    case Other => Null
  }

  function ItemIds(items: seq<ViaItem>): seq<Value> {
    if items == [] then [] else
    ItemIds(items[..|items| - 1]) + if ItemId(items[|items| - 1]).Truthy() then [ItemId(items[|items| - 1])] else []
  }

  function AdvisoryIds(via: Via): seq<Value> {
    match via
    case Items(items) => ItemIds(items)
    case Single(text) => if text != "" then [Text(text)] else []
    case NoVia => []
  }

  function VulnerabilityFindings(v: Vulnerability): seq<Finding> {
    var ids := AdvisoryIds(v.via);
    seq(|ids|, i requires 0 <= i < |ids| => Finding(Text(v.name), v.severity, ids[i]))
  }

  function AllVulnerabilities(vs: seq<Vulnerability>): seq<Finding> {
    if vs == [] then [] else AllVulnerabilities(vs[..|vs| - 1]) + VulnerabilityFindings(vs[|vs| - 1])
  }

  /** `iter_vulns`. */
  function Findings(audit: Audit): seq<Finding> {
    seq(|audit.advisories|, i requires 0 <= i < |audit.advisories| =>
          var a := audit.advisories[i];
          Finding(a.moduleName.Or(a.name), a.severity, PickAdvisoryId(a)))
    + AllVulnerabilities(audit.vulnerabilities)
  }

  // ---------------------------------------------------------------- keys and verdict

  function Normal(v: Value): string {
    match v
    case Null => ""
    case Text(t) => Strip(t)
    case Number(d) => Strip(d)
  }

  function NormalizeSeverity(s: string): string {
    Lower(Strip(s))
  }

  type Key = (string, string)

  function FindingKey(f: Finding): Key {
    (Normal(f.name), Lower(Normal(f.advisory)))
  }

  const HIGH_SEVERITIES: set<string> := {"high", "critical"}

  /** Only high and critical findings with a name are looked at. */
  predicate Relevant(f: Finding) {
    NormalizeSeverity(f.severity) in HIGH_SEVERITIES && f.name.Truthy()
  }

  const REQUIRED_FIELDS: set<string> := {"package", "advisory", "severity", "mitigation", "expires_on"}

  function Field(e: Exception, name: string): string {
    if name in e then e[name] else ""
  }

  function ExceptionKey(e: Exception): Key {
    (Strip(Field(e, "package")), Lower(Strip(Field(e, "advisory"))))
  }

  function ExceptionSeverity(e: Exception): string {
    NormalizeSeverity(Field(e, "severity"))
  }

  /** The days are counted from some epoch; an invalid date has no day. */
  type Calendar = string -> Option<int>

  /** The exception has all fields, a valid date, and a package and advisory that are not blank. */
  predicate GoodException(calendar: Calendar, e: Exception) {
    && (forall name <- REQUIRED_FIELDS :: Field(e, name) != "")
    && calendar(Field(e, "expires_on")).Some?
    && ExceptionKey(e).0 != "" && ExceptionKey(e).1 != ""
  }

  datatype Entry = Entry(severity: string, expires: int)

  function EntryOf(calendar: Calendar, e: Exception): Entry
    requires GoodException(calendar, e)
  {
    Entry(ExceptionSeverity(e), calendar(Field(e, "expires_on")).value)
  }

  datatype Error =
    | MissingFields
    | InvalidDate
    | MissingValue
    | DuplicateException(key: Key)
    | MissingAdvisoryId(name: Value)
    | SeverityMismatch(key: Key)
    | MissingException(key: Key)
    | UnusedException(key: Key)
    | Expired(key: Key)

  function Keys(exceptions: seq<Exception>): seq<Key> {
    seq(|exceptions|, i requires 0 <= i < |exceptions| => ExceptionKey(exceptions[i]))
  }

  function RelevantKeys(findings: seq<Finding>): set<Key> {
    set f | f in findings && Relevant(f) :: FindingKey(f)
  }

  /** The severity of the first relevant finding with this key. */
  function FirstSeverity(findings: seq<Finding>, key: Key): Option<string> {
    if findings == [] then None
    else if Relevant(findings[0]) && FindingKey(findings[0]) == key then Some(NormalizeSeverity(findings[0].severity))
    else FirstSeverity(findings[1..], key)
  }

  /** The meaning of the gate: the exceptions are well formed, exactly the relevant findings have one,
      none has expired, and each agrees with the first finding it covers. */
  predicate Accepts(calendar: Calendar, today: int, exceptions: seq<Exception>, findings: seq<Finding>) {
    && (forall e <- exceptions :: GoodException(calendar, e))
    && Distinct(Keys(exceptions))
    && (forall f <- findings :: Relevant(f) ==> FindingKey(f).1 != "")
    && Elements(Keys(exceptions)) == RelevantKeys(findings)
    && forall e <- exceptions :: GoodException(calendar, e) ==>
         && today <= EntryOf(calendar, e).expires
         && (ExceptionSeverity(e) == "" || FirstSeverity(findings, ExceptionKey(e)) == Some(ExceptionSeverity(e)))
  }

  // ---------------------------------------------------------------- the loops

  ghost predicate Indexes(calendar: Calendar, exceptions: seq<Exception>, index: map<Key, Entry>) {
    && (forall e <- exceptions :: GoodException(calendar, e))
    && Distinct(Keys(exceptions))
    && index.Keys == Elements(Keys(exceptions))
    && forall e <- exceptions :: GoodException(calendar, e) ==> ExceptionKey(e) in index && index[ExceptionKey(e)] == EntryOf(calendar, e)
  }

  predicate HasFields(e: Exception) {
    forall name <- REQUIRED_FIELDS :: Field(e, name) != ""
  }

  predicate GoodFor(calendar: Calendar, e: Exception, key: Key) {
    GoodException(calendar, e) && ExceptionKey(e) == key
  }

  /** The index after some exceptions: the first good one of each key. */
  function IndexOf(calendar: Calendar, exceptions: seq<Exception>): map<Key, Entry> {
    if exceptions == [] then map[] else
    var before, e := IndexOf(calendar, exceptions[..|exceptions| - 1]), exceptions[|exceptions| - 1];
    if GoodException(calendar, e) && ExceptionKey(e) !in before then before[ExceptionKey(e) := EntryOf(calendar, e)] else before
  }

  /** One of the exceptions is good and has this key. */
  ghost predicate HasGood(calendar: Calendar, exceptions: seq<Exception>, key: Key) {
    exists k :: 0 <= k < |exceptions| && GoodFor(calendar, exceptions[k], key)
  }

  lemma HasGoodSnoc(calendar: Calendar, init: seq<Exception>, last: Exception, key: Key)
    ensures HasGood(calendar, init + [last], key) <==> HasGood(calendar, init, key) || GoodFor(calendar, last, key)
  {
    hide GoodFor;
    var all := init + [last];
    assert all[|init|] == last;
    if k :| 0 <= k < |init| && GoodFor(calendar, init[k], key) {
      assert all[k] == init[k];
    }
  }

  lemma IndexStep(calendar: Calendar, init: seq<Exception>, last: Exception, key: Key)
    ensures key in IndexOf(calendar, init + [last]) <==> key in IndexOf(calendar, init) || GoodFor(calendar, last, key)
  {
    hide GoodException, ExceptionKey, EntryOf;
    assert (init + [last])[..|init|] == init;
  }

  lemma {:induction false} IndexHoldsGoodKeys(calendar: Calendar, exceptions: seq<Exception>, key: Key)
    ensures key in IndexOf(calendar, exceptions) <==> HasGood(calendar, exceptions, key)
  {
    if exceptions != [] {
      hide GoodFor, IndexOf, HasGood;
      var init, last := exceptions[..|exceptions| - 1], exceptions[|exceptions| - 1];
      assert exceptions == init + [last];
      IndexHoldsGoodKeys(calendar, init, key);
      IndexStep(calendar, init, last, key);
      HasGoodSnoc(calendar, init, last, key);
    }
  }

  /** Of the good exceptions with one key the index holds the first. */
  lemma {:induction false} IndexHoldsTheFirst(calendar: Calendar, exceptions: seq<Exception>, k: nat)
    requires k < |exceptions| && GoodException(calendar, exceptions[k])
    requires forall j :: 0 <= j < k ==> !GoodFor(calendar, exceptions[j], ExceptionKey(exceptions[k]))
    ensures var key := ExceptionKey(exceptions[k]);
            key in IndexOf(calendar, exceptions) && IndexOf(calendar, exceptions)[key] == EntryOf(calendar, exceptions[k])
  {
    hide GoodException, ExceptionKey, EntryOf, GoodFor;
    var init, last := exceptions[..|exceptions| - 1], exceptions[|exceptions| - 1];
    if k < |init| {
      IndexHoldsTheFirst(calendar, init, k);
    } else {
      IndexHoldsGoodKeys(calendar, init, ExceptionKey(last));
    }
  }

  /** What is reported of one exception, given the keys before it. */
  function ExceptionErrors(calendar: Calendar, e: Exception, keys: set<Key>): seq<Error> {
    if !HasFields(e) then [MissingFields]
    else if calendar(Field(e, "expires_on")).None? then [InvalidDate]
    else if ExceptionKey(e).0 == "" || ExceptionKey(e).1 == "" then [MissingValue]
    else if ExceptionKey(e) in keys then [DuplicateException(ExceptionKey(e))]
    else []
  }

  /** What is wrong with an exception of its own. */
  predicate IsBad(calendar: Calendar, e: Exception, x: Error) {
    match x
    case MissingFields => !HasFields(e)
    case InvalidDate => HasFields(e) && calendar(Field(e, "expires_on")).None?
    case MissingValue => HasFields(e) && calendar(Field(e, "expires_on")).Some? && (ExceptionKey(e).0 == "" || ExceptionKey(e).1 == "")
    case _ => false
  }

  lemma ExceptionErrorIs(calendar: Calendar, e: Exception, keys: set<Key>, x: Error)
    ensures x in ExceptionErrors(calendar, e, keys) <==>
            IsBad(calendar, e, x) || (x.DuplicateException? && x.key in keys && GoodFor(calendar, e, x.key))
    ensures ExceptionErrors(calendar, e, keys) == [] <==> GoodException(calendar, e) && ExceptionKey(e) !in keys
  {
    hide ExceptionKey, Field;
    assert HasFields(e) <==> forall name <- REQUIRED_FIELDS :: Field(e, name) != "";
    hide HasFields;
  }

  function IndexErrors(calendar: Calendar, exceptions: seq<Exception>): seq<Error> {
    if exceptions == [] then [] else
    var init, e := exceptions[..|exceptions| - 1], exceptions[|exceptions| - 1];
    IndexErrors(calendar, init) + ExceptionErrors(calendar, e, IndexOf(calendar, init).Keys)
  }

  /** Two good exceptions have this key. */
  ghost predicate SharedByTwo(calendar: Calendar, exceptions: seq<Exception>, key: Key) {
    exists i, j :: 0 <= i < j < |exceptions| && GoodFor(calendar, exceptions[i], key) && GoodFor(calendar, exceptions[j], key)
  }

  /** What is reported of the list of exceptions: what is wrong with one of them, and a key that two good
      ones share. */
  ghost predicate ListReported(calendar: Calendar, exceptions: seq<Exception>, x: Error) {
    (exists e <- exceptions :: IsBad(calendar, e, x)) || (x.DuplicateException? && SharedByTwo(calendar, exceptions, x.key))
  }

  lemma SharedSnoc(calendar: Calendar, init: seq<Exception>, last: Exception, key: Key)
    ensures SharedByTwo(calendar, init + [last], key) <==>
            SharedByTwo(calendar, init, key) || (GoodFor(calendar, last, key) && HasGood(calendar, init, key))
  {
    hide GoodFor;
    var all := init + [last];
    assert all[|init|] == last && forall i :: 0 <= i < |init| ==> all[i] == init[i];
    if i, j :| 0 <= i < j < |init| && GoodFor(calendar, init[i], key) && GoodFor(calendar, init[j], key) {
      assert GoodFor(calendar, all[i], key) && GoodFor(calendar, all[j], key);
    }
    if GoodFor(calendar, last, key) && HasGood(calendar, init, key) {
      var k :| 0 <= k < |init| && GoodFor(calendar, init[k], key);
      assert GoodFor(calendar, all[k], key) && GoodFor(calendar, all[|init|], key);
    }
    if i, j :| 0 <= i < j < |all| && GoodFor(calendar, all[i], key) && GoodFor(calendar, all[j], key) {
      assert GoodFor(calendar, init[i], key);
    }
  }

  lemma {:induction false} IndexErrorsAre(calendar: Calendar, exceptions: seq<Exception>, x: Error)
    ensures x in IndexErrors(calendar, exceptions) <==> ListReported(calendar, exceptions, x)
  {
    if exceptions != [] {
      hide GoodFor, IsBad, ExceptionErrors, SharedByTwo, IndexOf;
      var init, last := exceptions[..|exceptions| - 1], exceptions[|exceptions| - 1];
      assert exceptions == init + [last];
      IndexErrorsAre(calendar, init, x);
      ExceptionErrorIs(calendar, last, IndexOf(calendar, init).Keys, x);
      if x.DuplicateException? {
        SharedSnoc(calendar, init, last, x.key);
        IndexHoldsGoodKeys(calendar, init, x.key);
      }
      assert forall e :: e in exceptions <==> e in init || e == last;
    } else {
      NothingShared(calendar, x);
    }
  }

  lemma NothingShared(calendar: Calendar, x: Error)
    ensures !ListReported(calendar, [], x)
  {
  }

  lemma NothingIndexed(calendar: Calendar)
    ensures Indexes(calendar, [], map[])
  {
    NoKeys();
  }

  lemma IndexesSnoc(calendar: Calendar, init: seq<Exception>, last: Exception, index: map<Key, Entry>)
    requires Indexes(calendar, init, index) && GoodException(calendar, last) && ExceptionKey(last) !in index
    ensures Indexes(calendar, init + [last], index[ExceptionKey(last) := EntryOf(calendar, last)])
  {
    hide GoodException, ExceptionKey, Distinct, EntryOf, Keys, Elements;
    KeysSnoc(init, last);
    InElements(Keys(init), ExceptionKey(last));
    assert forall e :: e in init + [last] <==> e in init || e == last;
  }

  ghost predicate AllGood(calendar: Calendar, exceptions: seq<Exception>) {
    forall e <- exceptions :: GoodException(calendar, e)
  }

  lemma AllGoodSnoc(calendar: Calendar, init: seq<Exception>, last: Exception)
    ensures AllGood(calendar, init + [last]) <==> AllGood(calendar, init) && GoodException(calendar, last)
  {
    hide GoodException;
    assert forall e :: e in init + [last] <==> e in init || e == last;
  }

  lemma IndexErrorsSnoc(calendar: Calendar, init: seq<Exception>, last: Exception)
    ensures IndexErrors(calendar, init + [last]) ==
            IndexErrors(calendar, init) + ExceptionErrors(calendar, last, IndexOf(calendar, init).Keys)
    ensures GoodException(calendar, last) && ExceptionKey(last) !in IndexOf(calendar, init) ==>
              IndexOf(calendar, init + [last]) == IndexOf(calendar, init)[ExceptionKey(last) := EntryOf(calendar, last)]
  {
    hide GoodException, ExceptionKey, EntryOf, ExceptionErrors;
    assert (init + [last])[..|init|] == init;
  }

  lemma {:induction false} NoIndexErrors(calendar: Calendar, exceptions: seq<Exception>)
    ensures IndexErrors(calendar, exceptions) == [] <==> AllGood(calendar, exceptions) && Distinct(Keys(exceptions))
    ensures IndexErrors(calendar, exceptions) == [] ==> Indexes(calendar, exceptions, IndexOf(calendar, exceptions))
  {
    if exceptions == [] {
      NothingIndexed(calendar);
    } else {
      var init, last := exceptions[..|exceptions| - 1], exceptions[|exceptions| - 1];
      assert exceptions == init + [last];
      NoIndexErrors(calendar, init);
      IndexErrorsSnoc(calendar, init, last);
      ExceptionErrorIs(calendar, last, IndexOf(calendar, init).Keys, MissingFields);
      AllGoodSnoc(calendar, init, last);
      KeysSnoc(init, last);
      InElements(Keys(init), ExceptionKey(last));
      IndexedKeys(calendar, init);
      hide *;
      if IndexErrors(calendar, exceptions) == [] {
        IndexesSnoc(calendar, init, last, IndexOf(calendar, init));
      }
    }
  }

  lemma IndexedKeys(calendar: Calendar, exceptions: seq<Exception>)
    ensures Indexes(calendar, exceptions, IndexOf(calendar, exceptions)) ==>
              IndexOf(calendar, exceptions).Keys == Elements(Keys(exceptions))
  {
  }

  /** Index the exceptions; bad and repeated ones are reported and left out. */
  method IndexExceptions(calendar: Calendar, exceptions: seq<Exception>)
    returns (index: map<Key, Entry>, errors: seq<Error>)
    ensures errors == [] <==> (forall e <- exceptions :: GoodException(calendar, e)) && Distinct(Keys(exceptions))
    ensures errors == [] ==> Indexes(calendar, exceptions, index)
    ensures index == IndexOf(calendar, exceptions)
    ensures forall x :: x in errors <==> ListReported(calendar, exceptions, x)
  {
    index, errors := map[], [];
    hide EntryOf, ExceptionKey, Distinct, Field, Indexes, ListReported, Keys;
    for k := 0 to |exceptions|
      invariant index == IndexOf(calendar, exceptions[..k]) && errors == IndexErrors(calendar, exceptions[..k])
    {
      var e := exceptions[k];
      assert exceptions[..k + 1][..k] == exceptions[..k];
      if exists name <- REQUIRED_FIELDS :: Field(e, name) == "" {
        errors := errors + [MissingFields];
        continue;
      }
      var day := calendar(Field(e, "expires_on"));
      var key := ExceptionKey(e);
      if day.None? {
        errors := errors + [InvalidDate];
      } else if key.0 == "" || key.1 == "" {
        errors := errors + [MissingValue];
      } else if key in index {
        errors := errors + [DuplicateException(key)];
      } else {
        index := index[key := EntryOf(calendar, e)];
      }
    }
    assert exceptions[..|exceptions|] == exceptions;
    NoIndexErrors(calendar, exceptions);
    assert AllGood(calendar, exceptions) <==> forall e <- exceptions :: GoodException(calendar, e);
    forall x ensures x in errors <==> ListReported(calendar, exceptions, x) {
      IndexErrorsAre(calendar, exceptions, x);
    }
  }

  lemma NoKeys()
    ensures Distinct(Keys([]))
  {
  }

  lemma KeysSnoc(exceptions: seq<Exception>, e: Exception)
    ensures Keys(exceptions + [e]) == Keys(exceptions) + [ExceptionKey(e)]
    ensures Distinct(Keys(exceptions + [e])) <==> Distinct(Keys(exceptions)) && ExceptionKey(e) !in Keys(exceptions)
    ensures Elements(Keys(exceptions + [e])) == Elements(Keys(exceptions)) + {ExceptionKey(e)}
    ensures forall x <- exceptions :: ExceptionKey(x) in Keys(exceptions)
  {
    hide ExceptionKey;
    assert Keys(exceptions + [e]) == Keys(exceptions) + [ExceptionKey(e)];
    OneMoreDistinct(Keys(exceptions), ExceptionKey(e));
    forall x | x in exceptions ensures ExceptionKey(x) in Keys(exceptions) {
      var i :| 0 <= i < |exceptions| && exceptions[i] == x;
      assert Keys(exceptions)[i] == ExceptionKey(x);
    }
  }

  lemma {:induction false} FirstIsFirst(findings: seq<Finding>, k: nat)
    requires k < |findings| && Relevant(findings[k])
    requires forall i :: 0 <= i < k && Relevant(findings[i]) ==> FindingKey(findings[i]) != FindingKey(findings[k])
    ensures FirstSeverity(findings, FindingKey(findings[k])) == Some(NormalizeSeverity(findings[k].severity))
  {
    if k > 0 {
      FirstIsFirst(findings[1..], k - 1);
    }
  }

  lemma InRelevantKeys(findings: seq<Finding>, key: Key)
    ensures key in RelevantKeys(findings) <==> exists i :: 0 <= i < |findings| && Relevant(findings[i]) && FindingKey(findings[i]) == key
  {
    hide Relevant, FindingKey;
    if i :| 0 <= i < |findings| && Relevant(findings[i]) && FindingKey(findings[i]) == key {
      assert findings[i] in findings;
    }
    if key in RelevantKeys(findings) {
      var f :| f in findings && Relevant(f) && FindingKey(f) == key;
      var i :| 0 <= i < |findings| && findings[i] == f;
    }
  }

  /** The key has an exception that has not expired and agrees with its first finding. */
  predicate Excepted(today: int, index: map<Key, Entry>, findings: seq<Finding>, key: Key) {
    && key in index && today <= index[key].expires
    && (index[key].severity == "" || FirstSeverity(findings, key) == Some(index[key].severity))
  }

  /** One of the first `n` findings is looked at under this key. */
  ghost predicate IsSeen(findings: seq<Finding>, n: nat, key: Key)
    requires n <= |findings|
  {
    exists i :: 0 <= i < n && Relevant(findings[i]) && FindingKey(findings[i]) == key
  }

  lemma SeenSnoc(findings: seq<Finding>, n: nat)
    requires n < |findings|
    ensures forall key :: IsSeen(findings, n + 1, key) <==>
              IsSeen(findings, n, key) || (Relevant(findings[n]) && FindingKey(findings[n]) == key)
  {
    hide Relevant, FindingKey;
    forall key ensures IsSeen(findings, n + 1, key) <==>
                       IsSeen(findings, n, key) || (Relevant(findings[n]) && FindingKey(findings[n]) == key)
    {
      if IsSeen(findings, n + 1, key) {
        var i :| 0 <= i < n + 1 && Relevant(findings[i]) && FindingKey(findings[i]) == key;
      }
    }
  }

  ghost predicate LacksId(findings: seq<Finding>, n: nat, name: Value)
    requires n <= |findings|
  {
    exists i :: 0 <= i < n && Relevant(findings[i]) && FindingKey(findings[i]).1 == "" && findings[i].name == name
  }

  lemma LacksSnoc(findings: seq<Finding>, n: nat)
    requires n < |findings|
    ensures forall name :: LacksId(findings, n + 1, name) <==>
              LacksId(findings, n, name) || (Relevant(findings[n]) && FindingKey(findings[n]).1 == "" && findings[n].name == name)
  {
    hide Relevant, FindingKey;
    forall name ensures LacksId(findings, n + 1, name) <==>
                        LacksId(findings, n, name) || (Relevant(findings[n]) && FindingKey(findings[n]).1 == "" && findings[n].name == name)
    {
      if LacksId(findings, n + 1, name) {
        var i :| 0 <= i < n + 1 && Relevant(findings[i]) && FindingKey(findings[i]).1 == "" && findings[i].name == name;
      }
    }
  }

  /** What is reported of the first `n` findings: one without an identifier, and for each key an exception
      that is missing, disagrees with the severity of its first finding, or has expired. */
  ghost predicate FindingReported(today: int, index: map<Key, Entry>, findings: seq<Finding>, n: nat, x: Error)
    requires n <= |findings|
  {
    match x
    case MissingAdvisoryId(name) => LacksId(findings, n, name)
    case MissingException(key) => key.1 != "" && IsSeen(findings, n, key) && key !in index
    case SeverityMismatch(key) =>
      key.1 != "" && IsSeen(findings, n, key) && key in index &&
      index[key].severity != "" && FirstSeverity(findings, key) != Some(index[key].severity)
    case Expired(key) => key.1 != "" && IsSeen(findings, n, key) && key in index && index[key].expires < today
    case _ => false
  }

  /** Match the findings with the index.  Of the findings with one key, the first is checked. */
  method MatchFindings(today: int, index: map<Key, Entry>, findings: seq<Finding>)
    returns (matched: set<Key>, errors: seq<Error>, missing: seq<Error>, expired: seq<Error>)
    ensures errors + missing + expired == [] <==>
            forall f <- findings :: Relevant(f) ==> FindingKey(f).1 != "" && Excepted(today, index, findings, FindingKey(f))
    ensures errors + missing + expired == [] ==> matched == RelevantKeys(findings)
    ensures forall x :: x in errors + missing + expired <==> FindingReported(today, index, findings, |findings|, x)
    ensures forall key :: key in matched <==> key.1 != "" && IsSeen(findings, |findings|, key) && key in index
  {
    matched, errors, missing, expired := {}, [], [], [];
    var seen: set<Key> := {};
    hide Relevant, FindingKey, FirstSeverity, NormalizeSeverity, RelevantKeys, IsSeen, LacksId;
    NothingSeen(findings);
    for k := 0 to |findings|
      invariant forall key :: key in seen <==> key.1 != "" && IsSeen(findings, k, key)
      invariant matched == seen * index.Keys
      invariant forall x :: x in errors || x in missing || x in expired <==> FindingReported(today, index, findings, k, x)
    {
      var f := findings[k];
      SeenSnoc(findings, k);
      LacksSnoc(findings, k);
      if !Relevant(f) {
        continue;
      }
      var key := FindingKey(f);
      if key.1 == "" {
        errors := errors + [MissingAdvisoryId(f.name)];
        continue;
      }
      if key in seen {
        continue;
      }
      seen := seen + {key};
      FirstIfNotSeen(findings, k);
      if key !in index {
        missing := missing + [MissingException(key)];
        continue;
      }
      matched := matched + {key};
      if index[key].severity != "" && index[key].severity != NormalizeSeverity(f.severity) {
        errors := errors + [SeverityMismatch(key)];
      }
      if index[key].expires < today {
        expired := expired + [Expired(key)];
      }
    }
    NothingReportedIff(today, index, findings, errors + missing + expired);
    if errors + missing + expired == [] {
      forall key ensures key in matched <==> key in RelevantKeys(findings) {
        SeenIsRelevant(findings, key);
        assert !FindingReported(today, index, findings, |findings|, MissingException(key));
        NoBlankKey(today, index, findings, key);
      }
    }
  }

  lemma NothingSeen(findings: seq<Finding>)
    ensures forall key :: !IsSeen(findings, 0, key)
    ensures forall name :: !LacksId(findings, 0, name)
  {
  }

  lemma FirstIfNotSeen(findings: seq<Finding>, k: nat)
    requires k < |findings| && Relevant(findings[k]) && !IsSeen(findings, k, FindingKey(findings[k]))
    ensures FirstSeverity(findings, FindingKey(findings[k])) == Some(NormalizeSeverity(findings[k].severity))
  {
    hide Relevant, FindingKey, NormalizeSeverity, FirstSeverity;
    FirstIsFirst(findings, k);
  }

  lemma SeenIsRelevant(findings: seq<Finding>, key: Key)
    ensures IsSeen(findings, |findings|, key) <==> key in RelevantKeys(findings)
  {
    hide Relevant, FindingKey;
    InRelevantKeys(findings, key);
  }

  lemma NoBlankKey(today: int, index: map<Key, Entry>, findings: seq<Finding>, key: Key)
    requires forall x :: !FindingReported(today, index, findings, |findings|, x)
    ensures IsSeen(findings, |findings|, key) ==> key.1 != ""
  {
    hide Relevant, FindingKey;
    if IsSeen(findings, |findings|, key) {
      var i :| 0 <= i < |findings| && Relevant(findings[i]) && FindingKey(findings[i]) == key;
      assert !FindingReported(today, index, findings, |findings|, MissingAdvisoryId(findings[i].name));
    }
  }

  /** Nothing is reported exactly when every finding that is looked at has an identifier and its exception. */
  lemma NothingReportedIff(today: int, index: map<Key, Entry>, findings: seq<Finding>, errors: seq<Error>)
    requires forall x :: x in errors <==> FindingReported(today, index, findings, |findings|, x)
    ensures errors == [] <==>
            forall f <- findings :: Relevant(f) ==> FindingKey(f).1 != "" && Excepted(today, index, findings, FindingKey(f))
  {
    hide Relevant, FindingKey, FirstSeverity;
    if errors == [] {
      forall f | f in findings && Relevant(f) ensures FindingKey(f).1 != "" && Excepted(today, index, findings, FindingKey(f)) {
        var key := FindingKey(f);
        var i :| 0 <= i < |findings| && findings[i] == f;
        assert IsSeen(findings, |findings|, key);
        NoBlankKey(today, index, findings, key);
        assert !FindingReported(today, index, findings, |findings|, MissingException(key));
        assert !FindingReported(today, index, findings, |findings|, SeverityMismatch(key));
        assert !FindingReported(today, index, findings, |findings|, Expired(key));
      }
    } else {
      assert FindingReported(today, index, findings, |findings|, errors[0]);
    }
  }

  method UnusedExceptions(index: map<Key, Entry>, matched: set<Key>) returns (errors: seq<Error>)
    ensures errors == [] <==> index.Keys <= matched
    ensures forall x :: x in errors <==> x.UnusedException? && x.key in index && x.key !in matched
  {
    errors := [];
    var todo := index.Keys - matched;
    if todo == {} {
      forall key | key in index.Keys ensures key in matched {
        assert key !in todo;
      }
    }
    while todo != {}
      invariant todo <= index.Keys - matched
      invariant errors == [] ==> todo == index.Keys - matched
      invariant errors != [] ==> !(index.Keys <= matched)
      invariant forall x :: x in errors <==> x.UnusedException? && x.key in index.Keys - matched - todo
      decreases |todo|
    {
      var key :| key in todo;
      errors := errors + [UnusedException(key)];
      todo := todo - {key};
    }
  }

  /** A good exception has this key, and no finding that is looked at. */
  ghost predicate IsUnused(calendar: Calendar, exceptions: seq<Exception>, findings: seq<Finding>, key: Key) {
    HasGood(calendar, exceptions, key) && !IsSeen(findings, |findings|, key)
  }

  lemma UnusedIff(calendar: Calendar, exceptions: seq<Exception>, findings: seq<Finding>, key: Key)
    ensures IsUnused(calendar, exceptions, findings, key) <==>
            key in IndexOf(calendar, exceptions) && !(key.1 != "" && IsSeen(findings, |findings|, key))
  {
    IndexHoldsGoodKeys(calendar, exceptions, key);
    hide IndexOf, IsSeen, ExceptionKey;
    if key in IndexOf(calendar, exceptions) {
      var k :| 0 <= k < |exceptions| && GoodFor(calendar, exceptions[k], key);
      assert key.1 != "";
    }
  }

  /** The gate on parsed exceptions and findings. */
  method Validate(calendar: Calendar, today: int, exceptions: seq<Exception>, findings: seq<Finding>) returns (errors: seq<Error>)
    ensures errors == [] <==> Accepts(calendar, today, exceptions, findings)
    ensures forall x :: x in errors <==>
              || ListReported(calendar, exceptions, x)
              || FindingReported(today, IndexOf(calendar, exceptions), findings, |findings|, x)
              || (x.UnusedException? && IsUnused(calendar, exceptions, findings, x.key))
  {
    hide ListReported, FindingReported;
    var index, invalid := IndexExceptions(calendar, exceptions);
    var matched, mismatched, missing, expired := MatchFindings(today, index, findings);
    var unused := UnusedExceptions(index, matched);
    errors := invalid + mismatched + missing + unused + expired;
    forall x: Error | x.UnusedException?
      ensures IsUnused(calendar, exceptions, findings, x.key) <==> x.key in index && x.key !in matched
    {
      UnusedIff(calendar, exceptions, findings, x.key);
    }
    forall x ensures x in errors <==> x in invalid || x in mismatched + missing + expired || x in unused {
    }
    if invalid == [] {
      AcceptsIff(calendar, today, exceptions, index, findings);
      assert mismatched + missing + expired == [] <==> mismatched == [] && missing == [] && expired == [];
    }
  }

  lemma AcceptsIff(calendar: Calendar, today: int, exceptions: seq<Exception>, index: map<Key, Entry>, findings: seq<Finding>)
    requires Indexes(calendar, exceptions, index)
    ensures Accepts(calendar, today, exceptions, findings) <==>
            && (forall f <- findings :: Relevant(f) ==> FindingKey(f).1 != "" && Excepted(today, index, findings, FindingKey(f)))
            && index.Keys <= RelevantKeys(findings)
  {
    hide Relevant, FindingKey, FirstSeverity, Distinct, ExceptionKey, GoodException;
    if Accepts(calendar, today, exceptions, findings) {
      forall f | f in findings && Relevant(f) ensures Excepted(today, index, findings, FindingKey(f)) {
        assert FindingKey(f) in RelevantKeys(findings);
        var e := ExceptionWithKey(exceptions, FindingKey(f));
        assert GoodException(calendar, e);
      }
    }
    if (forall f <- findings :: Relevant(f) ==> FindingKey(f).1 != "" && Excepted(today, index, findings, FindingKey(f)))
       && index.Keys <= RelevantKeys(findings) {
      forall key | key in RelevantKeys(findings) ensures key in index.Keys {
      }
      forall e | e in exceptions && GoodException(calendar, e)
        ensures today <= EntryOf(calendar, e).expires
        ensures ExceptionSeverity(e) == "" || FirstSeverity(findings, ExceptionKey(e)) == Some(ExceptionSeverity(e))
      {
        assert ExceptionKey(e) in RelevantKeys(findings);
        var f :| f in findings && Relevant(f) && FindingKey(f) == ExceptionKey(e);
        assert Excepted(today, index, findings, ExceptionKey(e));
      }
    }
  }

  lemma ExceptionWithKey(exceptions: seq<Exception>, key: Key) returns (e: Exception)
    requires key in Keys(exceptions)
    ensures e in exceptions && ExceptionKey(e) == key
  {
    var i :| 0 <= i < |exceptions| && Keys(exceptions)[i] == key;
    e := exceptions[i];
  }

  /** `iter_vulns`, section by section. */
  method IterVulns(audit: Audit) returns (findings: seq<Finding>)
    ensures findings == Findings(audit)
  {
    hide PickAdvisoryId, AdvisoryIds;
    findings := [];
    for k := 0 to |audit.advisories|
      invariant findings == seq(k, i requires 0 <= i < k =>
                                  Finding(audit.advisories[i].moduleName.Or(audit.advisories[i].name),
                                          audit.advisories[i].severity, PickAdvisoryId(audit.advisories[i])))
    {
      var a := audit.advisories[k];
      findings := findings + [Finding(a.moduleName.Or(a.name), a.severity, PickAdvisoryId(a))];
    }
    ghost var advisories := findings;
    for k := 0 to |audit.vulnerabilities|
      invariant findings == advisories + AllVulnerabilities(audit.vulnerabilities[..k])
    {
      assert audit.vulnerabilities[..k + 1][..k] == audit.vulnerabilities[..k];
      var v := audit.vulnerabilities[k];
      var ids := CollectIds(v.via);
      findings := findings + seq(|ids|, i requires 0 <= i < |ids| => Finding(Text(v.name), v.severity, ids[i]));
    }
    assert audit.vulnerabilities[..|audit.vulnerabilities|] == audit.vulnerabilities;
  }

  method CollectIds(via: Via) returns (ids: seq<Value>)
    ensures ids == AdvisoryIds(via)
  {
    ids := [];
    match via {
      case Items(items) =>
        for k := 0 to |items|
          invariant ids == ItemIds(items[..k])
        {
          assert items[..k + 1][..k] == items[..k];
          if ItemId(items[k]).Truthy() {
            ids := ids + [ItemId(items[k])];
          }
        }
        assert items[..|items|] == items;
      case Single(text) =>
        if text != "" {
          ids := [Text(text)];
        }
      case NoVia =>
    }
  }

  /** The exit code of the gate; an item line without a colon raises. */
  method Gate(calendar: Calendar, today: int, audit: Audit, text: string) returns (r: Result<int, ParseError>)
    ensures match ParseFrom(START, FileLines(text))
            case Err(e) => r == Err(e)
            case Ok(exceptions) =>
              && r == Ok(if Accepts(calendar, today, exceptions, Findings(audit)) then 0 else 1)
              && (r == Ok(0) ==> forall f :: Reported(audit, f) && IsHigh(f) ==> exists e <- exceptions :: IsFor(calendar, today, e, f))
  {
    var exceptions :- ParseExceptions(FileLines(text));
    var findings := IterVulns(audit);
    var errors := Validate(calendar, today, exceptions, findings);
    r := Ok(if errors == [] then 0 else 1);
    hide Accepts, Reported, IsHigh, IsFor, Findings;
    if errors == [] {
      AcceptedCoversReport(calendar, today, exceptions, audit);
    }
  }

  // ---------------------------------------------------------------- what is taken from a report

  /** The first of these values that is neither absent, empty nor zero; the last one if there is none. */
  predicate IsFirstTruthy(v: Value, values: seq<Value>)
    requires values != []
  {
    exists k :: 0 <= k < |values| && v == values[k] &&
      (forall j :: 0 <= j < k ==> IsFalsy(values[j])) && (!IsFalsy(values[k]) || k == |values| - 1)
  }

  /** Absent or null, an empty text, or the number zero. */
  predicate IsFalsy(v: Value) {
    v == Null || v == Text("") || v == Number("0")
  }

  /** The finding of an advisory: which fields decide, in which order. */
  predicate OfAdvisory(f: Finding, a: Advisory) {
    && IsFirstTruthy(f.name, [a.moduleName, a.name]) && f.severity == a.severity
    && IsFirstTruthy(f.advisory, [a.githubAdvisoryId, a.url, if a.cves == [] then Null else a.cves[0],
                                  match a.id case Number(d) => Text(d) case _ => a.id, a.title, a.advisory, a.overview])
  }

  /** How many findings a vulnerability can have: one for each item of its list, or one for its text. */
  function Places(via: Via): nat {
    match via case Items(items) => |items| case Single(_) => 1 case NoVia => 0
  }

  /** The identifier at one place of a vulnerability. */
  predicate IdentifiedAt(via: Via, k: nat, id: Value)
    requires k < Places(via)
  {
    match via
    case Single(text) => id == Text(text)
    case Items(items) =>
      match items[k]
      case Detail(gh, url, source, title, name) => IsFirstTruthy(id, [gh, url, source, title, name])
      case Reference(text) => id == Text(text)
      case Other => id == Null
  }

  predicate OfPlace(f: Finding, v: Vulnerability, k: nat)
    requires k < Places(v.via)
  {
    f.name == Text(v.name) && f.severity == v.severity && IdentifiedAt(v.via, k, f.advisory)
  }

  /** A place of the report: a vulnerability and one of its places. */
  type Place = (nat, nat)

  predicate IsPlace(vs: seq<Vulnerability>, p: Place) {
    p.0 < |vs| && p.1 < Places(vs[p.0].via)
  }

  predicate EarlierPlace(p: Place, q: Place) {
    p.0 < q.0 || (p.0 == q.0 && p.1 < q.1)
  }

  predicate InPlaceOrder(places: seq<Place>) {
    forall i, j :: 0 <= i < j < |places| ==> EarlierPlace(places[i], places[j])
  }

  /** Each finding comes from its place, and the places are all that have an identifier. */
  ghost predicate FromPlaces(findings: seq<Finding>, vs: seq<Vulnerability>, places: seq<Place>) {
    && |places| == |findings| && InPlaceOrder(places)
    && (forall i :: 0 <= i < |places| ==>
          IsPlace(vs, places[i]) && OfPlace(findings[i], vs[places[i].0], places[i].1) && findings[i].advisory.Truthy())
    && forall p: Place :: IsPlace(vs, p) && p !in places ==> forall id :: IdentifiedAt(vs[p.0].via, p.1, id) ==> !id.Truthy()
  }

  lemma FalsyIff(v: Value)
    ensures IsFalsy(v) <==> !v.Truthy()
  {
  }

  lemma FirstOfTwo(a: Value, b: Value)
    ensures IsFirstTruthy(a.Or(b), [a, b])
  {
    assert [a, b][0] == a && [a, b][1] == b;
  }

  lemma {:induction false} FirstOfMore(a: Value, v: Value, values: seq<Value>)
    requires values != [] && IsFirstTruthy(v, values)
    ensures IsFirstTruthy(a.Or(v), [a] + values)
  {
    var k :| 0 <= k < |values| && v == values[k] &&
      (forall j :: 0 <= j < k ==> IsFalsy(values[j])) && (!IsFalsy(values[k]) || k == |values| - 1);
    var all := [a] + values;
    assert all[0] == a && all[k + 1] == v;
    if !a.Truthy() {
      assert forall j :: 0 <= j < k + 1 ==> IsFalsy(all[j]);
    }
  }

  lemma FirstTruthyIsUnique(v: Value, w: Value, values: seq<Value>)
    requires values != [] && IsFirstTruthy(v, values) && IsFirstTruthy(w, values)
    ensures v == w
  {
  }

  lemma AdvisoryIdIs(a: Advisory)
    ensures OfAdvisory(Finding(a.moduleName.Or(a.name), a.severity, PickAdvisoryId(a)), a)
  {
    hide IsFirstTruthy, Value.Or;
    var cve := if a.cves == [] then Null else a.cves[0];
    var id := match a.id case Number(d) => Text(d) case _ => a.id;
    FirstOfTwo(a.moduleName, a.name);
    FirstOfTwo(a.advisory, a.overview);
    FirstOfMore(a.title, a.advisory.Or(a.overview), [a.advisory, a.overview]);
    var titles := [a.title] + [a.advisory, a.overview];
    FirstOfMore(id, a.title.Or(a.advisory.Or(a.overview)), titles);
    var ids := [id] + titles;
    FirstOfMore(cve, id.Or(a.title.Or(a.advisory.Or(a.overview))), ids);
    FirstOfMore(a.url, cve.Or(id.Or(a.title.Or(a.advisory.Or(a.overview)))), [cve] + ids);
    FirstOfMore(a.githubAdvisoryId, a.url.Or(cve.Or(id.Or(a.title.Or(a.advisory.Or(a.overview))))), [a.url] + ([cve] + ids));
    assert [a.githubAdvisoryId] + ([a.url] + ([cve] + ids)) ==
           [a.githubAdvisoryId, a.url, cve, id, a.title, a.advisory, a.overview];
    assert a.id.Str() == id;
  }

  lemma ItemIdIs(items: seq<ViaItem>, k: nat)
    requires k < |items|
    ensures IdentifiedAt(Items(items), k, ItemId(items[k]))
  {
    hide IsFirstTruthy, Value.Or;
    match items[k] {
      case Detail(gh, url, source, title, name) =>
        FirstOfTwo(title, name);
        FirstOfMore(source, title.Or(name), [title, name]);
        FirstOfMore(url, source.Or(title.Or(name)), [source] + [title, name]);
        FirstOfMore(gh, url.Or(source.Or(title.Or(name))), [url] + ([source] + [title, name]));
        assert [gh] + ([url] + ([source] + [title, name])) == [gh, url, source, title, name];
      case _ =>
    }
  }

  lemma OneIdAtPlace(via: Via, k: nat, v: Value, w: Value)
    requires k < Places(via) && IdentifiedAt(via, k, v) && IdentifiedAt(via, k, w)
    ensures v == w
  {
    hide IsFirstTruthy;
    if via.Items? && via.items[k].Detail? {
      var d := via.items[k];
      FirstTruthyIsUnique(v, w, [d.githubAdvisoryId, d.url, d.source, d.title, d.name]);
    }
  }

  /** The positions of the identified items, in order, with their identifiers. */
  ghost predicate ItemPlaces(items: seq<ViaItem>, ids: seq<Value>, at: seq<nat>) {
    && |at| == |ids|
    && (forall i :: 0 <= i < |at| ==> at[i] < |items| && ItemId(items[at[i]]) == ids[i] && ids[i].Truthy())
    && (forall i, j :: 0 <= i < j < |at| ==> at[i] < at[j])
    && forall k :: 0 <= k < |items| && k !in at ==> !ItemId(items[k]).Truthy()
  }

  lemma OneMoreItem(items: seq<ViaItem>, ids: seq<Value>, at: seq<nat>, item: ViaItem)
    requires ItemPlaces(items, ids, at)
    ensures if ItemId(item).Truthy() then ItemPlaces(items + [item], ids + [ItemId(item)], at + [|items|])
            else ItemPlaces(items + [item], ids, at)
  {
    hide ItemId, Value.Truthy;
    var all, more := items + [item], at + [|items|];
    assert forall k :: 0 <= k < |items| ==> all[k] == items[k];
    assert forall k :: k in more <==> k in at || k == |items|;
  }

  lemma NoItems()
    ensures ItemPlaces([], [], [])
  {
  }

  lemma {:induction false} ItemsHavePlaces(items: seq<ViaItem>) returns (at: seq<nat>)
    ensures ItemPlaces(items, ItemIds(items), at)
  {
    hide ItemId, Value.Truthy, ItemPlaces;
    at := [];
    if items == [] {
      NoItems();
    } else {
      var init, last := items[..|items| - 1], items[|items| - 1];
      at := ItemsHavePlaces(init);
      OneMoreItem(init, ItemIds(init), at, last);
      assert items == init + [last] && ItemIds(init) + [] == ItemIds(init);
      at := if ItemId(last).Truthy() then at + [|init|] else at;
    }
  }

  lemma ViaHasPlaces(via: Via) returns (at: seq<nat>)
    ensures |at| == |AdvisoryIds(via)|
    ensures forall i :: 0 <= i < |at| ==> at[i] < Places(via) && IdentifiedAt(via, at[i], AdvisoryIds(via)[i]) && AdvisoryIds(via)[i].Truthy()
    ensures forall i, j :: 0 <= i < j < |at| ==> at[i] < at[j]
    ensures forall k, id :: 0 <= k < Places(via) && k !in at && IdentifiedAt(via, k, id) ==> !id.Truthy()
  {
    hide IsFirstTruthy, ItemId;
    match via {
      case NoVia => at := [];
      case Single(text) =>
        at := if text != "" then [0] else [];
        assert text != "" ==> 0 in at;
      case Items(items) =>
        at := ItemsHavePlaces(items);
        forall i | 0 <= i < |at| ensures IdentifiedAt(via, at[i], ItemIds(items)[i]) {
          ItemIdIs(items, at[i]);
        }
        forall k, id | 0 <= k < |items| && k !in at && IdentifiedAt(via, k, id) ensures !id.Truthy() {
          ItemIdIs(items, k);
          OneIdAtPlace(via, k, id, ItemId(items[k]));
        }
    }
  }

  function PlacesOf(v: nat, at: seq<nat>): (r: seq<Place>)
    ensures |r| == |at|
  {
    seq(|at|, i requires 0 <= i < |at| => (v, at[i]))
  }

  lemma MorePlaces(findings: seq<Finding>, vs: seq<Vulnerability>, places: seq<Place>, v: Vulnerability, at: seq<nat>)
    requires FromPlaces(findings, vs, places) && |at| == |AdvisoryIds(v.via)|
    requires forall i :: 0 <= i < |at| ==> at[i] < Places(v.via) && IdentifiedAt(v.via, at[i], AdvisoryIds(v.via)[i]) && AdvisoryIds(v.via)[i].Truthy()
    requires forall i, j :: 0 <= i < j < |at| ==> at[i] < at[j]
    requires forall k, id :: 0 <= k < Places(v.via) && k !in at && IdentifiedAt(v.via, k, id) ==> !id.Truthy()
    ensures FromPlaces(findings + VulnerabilityFindings(v), vs + [v], places + PlacesOf(|vs|, at))
  {
    hide IdentifiedAt, Value.Truthy, AdvisoryIds, Places, OfPlace;
    var all, more, now := vs + [v], VulnerabilityFindings(v), PlacesOf(|vs|, at);
    forall i | 0 <= i < |places| + |now|
      ensures var p := (places + now)[i];
              IsPlace(all, p) && OfPlace((findings + more)[i], all[p.0], p.1) && (findings + more)[i].advisory.Truthy()
    {
      if i < |places| {
        assert all[places[i].0] == vs[places[i].0];
      } else {
        FoundAtPlace(v, at[i - |places|], i - |places|);
      }
    }
    InOrderSnoc(vs, places, at);
    NoneLeftOut(vs, places, v, at);
  }

  lemma InOrderSnoc(vs: seq<Vulnerability>, places: seq<Place>, at: seq<nat>)
    requires InPlaceOrder(places) && (forall i :: 0 <= i < |places| ==> IsPlace(vs, places[i]))
    requires forall i, j :: 0 <= i < j < |at| ==> at[i] < at[j]
    ensures InPlaceOrder(places + PlacesOf(|vs|, at))
  {
    hide Places;
  }

  lemma FoundAtPlace(v: Vulnerability, k: nat, i: nat)
    requires i < |AdvisoryIds(v.via)| && k < Places(v.via) && IdentifiedAt(v.via, k, AdvisoryIds(v.via)[i])
    ensures OfPlace(VulnerabilityFindings(v)[i], v, k) && VulnerabilityFindings(v)[i].advisory == AdvisoryIds(v.via)[i]
  {
    hide IdentifiedAt, AdvisoryIds, Places;
  }

  lemma NoneLeftOut(vs: seq<Vulnerability>, places: seq<Place>, v: Vulnerability, at: seq<nat>)
    requires forall p: Place :: IsPlace(vs, p) && p !in places ==> forall id :: IdentifiedAt(vs[p.0].via, p.1, id) ==> !id.Truthy()
    requires forall k, id :: 0 <= k < Places(v.via) && k !in at && IdentifiedAt(v.via, k, id) ==> !id.Truthy()
    ensures forall p: Place :: IsPlace(vs + [v], p) && p !in places + PlacesOf(|vs|, at) ==>
              forall id :: IdentifiedAt((vs + [v])[p.0].via, p.1, id) ==> !id.Truthy()
  {
    hide IdentifiedAt, Value.Truthy, Places, PlacesOf;
    var all, now := vs + [v], PlacesOf(|vs|, at);
    forall p: Place | IsPlace(all, p) && p !in places + now ensures forall id :: IdentifiedAt(all[p.0].via, p.1, id) ==> !id.Truthy() {
      if p.0 < |vs| {
        assert IsPlace(vs, p) && all[p.0] == vs[p.0] && p !in places;
      } else if p.1 in at {
        InPlacesOf(|vs|, at, p.1);
      }
    }
  }

  lemma InPlacesOf(v: nat, at: seq<nat>, k: nat)
    requires k in at
    ensures (v, k) in PlacesOf(v, at)
  {
    var i :| 0 <= i < |at| && at[i] == k;
    assert PlacesOf(v, at)[i] == (v, k);
  }

  /** The findings of the vulnerabilities come from the places with an identifier, one from each, in order. */
  lemma {:induction false} VulnerabilitiesHavePlaces(vs: seq<Vulnerability>) returns (places: seq<Place>)
    ensures FromPlaces(AllVulnerabilities(vs), vs, places)
  {
    places := [];
    if vs != [] {
      hide IdentifiedAt, Value.Truthy, AdvisoryIds, Places, FromPlaces;
      var init, last := vs[..|vs| - 1], vs[|vs| - 1];
      places := VulnerabilitiesHavePlaces(init);
      var at := ViaHasPlaces(last.via);
      MorePlaces(AllVulnerabilities(init), init, places, last, at);
      places := places + PlacesOf(|init|, at);
      assert vs == init + [last];
    }
  }

  /** What the gate takes from a report: first one finding for each advisory, in order, then one for each
      identified place of the vulnerabilities, in order. */
  lemma FindingsAre(audit: Audit) returns (places: seq<Place>)
    ensures var n := |audit.advisories|;
            && n <= |Findings(audit)|
            && (forall i :: 0 <= i < n ==> OfAdvisory(Findings(audit)[i], audit.advisories[i]))
            && FromPlaces(Findings(audit)[n..], audit.vulnerabilities, places)
  {
    hide OfAdvisory, FromPlaces, PickAdvisoryId;
    var n := |audit.advisories|;
    forall i | 0 <= i < n ensures OfAdvisory(Findings(audit)[i], audit.advisories[i]) {
      AdvisoryIdIs(audit.advisories[i]);
    }
    places := VulnerabilitiesHavePlaces(audit.vulnerabilities);
    assert Findings(audit)[n..] == AllVulnerabilities(audit.vulnerabilities);
  }

  /** The report shows this finding. */
  ghost predicate Reported(audit: Audit, f: Finding) {
    || (exists a <- audit.advisories :: OfAdvisory(f, a))
    || (!IsFalsy(f.advisory) && exists v <- audit.vulnerabilities :: OfSomePlace(f, v))
  }

  predicate OfSomePlace(f: Finding, v: Vulnerability) {
    exists k :: 0 <= k < Places(v.via) && OfPlace(f, v, k)
  }

  lemma OneFindingOfAdvisory(f: Finding, g: Finding, a: Advisory)
    requires OfAdvisory(f, a) && OfAdvisory(g, a)
    ensures f == g
  {
    hide IsFirstTruthy;
    FirstTruthyIsUnique(f.name, g.name, [a.moduleName, a.name]);
    FirstTruthyIsUnique(f.advisory, g.advisory,
      [a.githubAdvisoryId, a.url, if a.cves == [] then Null else a.cves[0],
       match a.id case Number(d) => Text(d) case _ => a.id, a.title, a.advisory, a.overview]);
  }

  lemma OneFindingAtPlace(f: Finding, g: Finding, v: Vulnerability, k: nat)
    requires k < Places(v.via) && OfPlace(f, v, k) && OfPlace(g, v, k)
    ensures f == g
  {
    hide IdentifiedAt;
    OneIdAtPlace(v.via, k, f.advisory, g.advisory);
  }

  /** The findings are exactly those the report shows. */
  lemma FoundIffReported(audit: Audit, f: Finding)
    ensures f in Findings(audit) <==> Reported(audit, f)
  {
    hide OfAdvisory, OfPlace, IdentifiedAt, Findings, Places, Value.Truthy;
    var n, findings := |audit.advisories|, Findings(audit);
    FalsyIff(f.advisory);
    var places := FindingsAre(audit);
    if f in findings {
      var i :| 0 <= i < |findings| && findings[i] == f;
      if i < n {
        assert audit.advisories[i] in audit.advisories;
      } else {
        assert findings[n..][i - n] == f;
        var p := places[i - n];
        assert audit.vulnerabilities[p.0] in audit.vulnerabilities && OfSomePlace(f, audit.vulnerabilities[p.0]);
      }
    }
    if a :| a in audit.advisories && OfAdvisory(f, a) {
      var i :| 0 <= i < n && audit.advisories[i] == a;
      OneFindingOfAdvisory(f, findings[i], a);
    } else if f.advisory.Truthy() && exists v <- audit.vulnerabilities :: OfSomePlace(f, v) {
      var v :| v in audit.vulnerabilities && OfSomePlace(f, v);
      var j :| 0 <= j < |audit.vulnerabilities| && audit.vulnerabilities[j] == v;
      var k :| 0 <= k < Places(v.via) && OfPlace(f, v, k);
      PlaceIsFound(audit, findings[n..], places, f, j, k);
    }
  }

  lemma PlaceIsFound(audit: Audit, findings: seq<Finding>, places: seq<Place>, f: Finding, j: nat, k: nat)
    requires FromPlaces(findings, audit.vulnerabilities, places) && j < |audit.vulnerabilities|
    requires k < Places(audit.vulnerabilities[j].via) && OfPlace(f, audit.vulnerabilities[j], k) && f.advisory.Truthy()
    ensures f in findings
  {
    hide IdentifiedAt, Value.Truthy, Places;
    var p: Place := (j, k);
    assert IsPlace(audit.vulnerabilities, p);
    assert IdentifiedAt(audit.vulnerabilities[j].via, k, f.advisory);
    var i :| 0 <= i < |places| && places[i] == p;
    OneFindingAtPlace(f, findings[i], audit.vulnerabilities[j], k);
  }

  /** A high or critical finding with a name. */
  predicate IsHigh(f: Finding) {
    !IsFalsy(f.name) && (Lower(Strip(f.severity)) == "high" || Lower(Strip(f.severity)) == "critical")
  }

  /** The exception is for the package and the advisory of the finding, and has not expired. */
  predicate IsFor(calendar: Calendar, today: int, e: Exception, f: Finding) {
    && "package" in e && Strip(e["package"]) == Strip(NormalText(f.name))
    && "advisory" in e && Lower(Strip(e["advisory"])) == Lower(Strip(NormalText(f.advisory)))
    && "expires_on" in e && calendar(e["expires_on"]).Some? && today <= calendar(e["expires_on"]).value
    && "severity" in e && e["severity"] != "" && "mitigation" in e && e["mitigation"] != ""
  }

  lemma KeysMeet(calendar: Calendar, today: int, e: Exception, f: Finding)
    requires GoodException(calendar, e) && today <= EntryOf(calendar, e).expires
    ensures ExceptionKey(e) == FindingKey(f) <==> IsFor(calendar, today, e, f)
  {
    NormalIsStripped(f.name);
    NormalIsStripped(f.advisory);
    hide Strip, Lower, Normal, NormalText;
    assert "package" in REQUIRED_FIELDS && "advisory" in REQUIRED_FIELDS && "expires_on" in REQUIRED_FIELDS;
    assert Field(e, "package") != "" && Field(e, "advisory") != "" && Field(e, "expires_on") != "";
    assert "severity" in REQUIRED_FIELDS && "mitigation" in REQUIRED_FIELDS;
    assert Field(e, "severity") != "" && Field(e, "mitigation") != "";
  }

  lemma HighIsRelevant(f: Finding)
    ensures Relevant(f) <==> IsHigh(f)
  {
    hide Strip, Lower;
  }

  /** When the gate lets a report through, every high finding it shows has an exception for it, and every
      exception is for one. */
  lemma AcceptedCoversReport(calendar: Calendar, today: int, exceptions: seq<Exception>, audit: Audit)
    requires Accepts(calendar, today, exceptions, Findings(audit))
    ensures forall f :: Reported(audit, f) && IsHigh(f) ==> exists e <- exceptions :: IsFor(calendar, today, e, f)
    ensures forall e <- exceptions :: exists f :: Reported(audit, f) && IsHigh(f) && IsFor(calendar, today, e, f)
  {
    hide Reported, IsHigh, IsFor, Findings, FindingKey, ExceptionKey, Relevant, GoodException, EntryOf, FirstSeverity, Distinct;
    var findings := Findings(audit);
    forall f | Reported(audit, f) && IsHigh(f) ensures exists e <- exceptions :: IsFor(calendar, today, e, f) {
      FoundIffReported(audit, f);
      HighIsRelevant(f);
      assert FindingKey(f) in RelevantKeys(findings);
      var e := ExceptionWithKey(exceptions, FindingKey(f));
      KeysMeet(calendar, today, e, f);
    }
    forall e | e in exceptions ensures exists f :: Reported(audit, f) && IsHigh(f) && IsFor(calendar, today, e, f) {
      KeyOfException(exceptions, e);
      assert ExceptionKey(e) in RelevantKeys(findings);
      var f :| f in findings && Relevant(f) && FindingKey(f) == ExceptionKey(e);
      FoundIffReported(audit, f);
      HighIsRelevant(f);
      KeysMeet(calendar, today, e, f);
    }
  }

  lemma KeyOfException(exceptions: seq<Exception>, e: Exception)
    requires e in exceptions
    ensures ExceptionKey(e) in Elements(Keys(exceptions))
  {
    hide ExceptionKey;
    var i :| 0 <= i < |exceptions| && exceptions[i] == e;
    assert Keys(exceptions)[i] == ExceptionKey(e);
  }

  // ---------------------------------------------------------------- what an accepted list is

  /** The findings determine an accepted list up to its order, wording and dates. */
  lemma AcceptedKeysAreDetermined(calendar: Calendar, today: int, a: seq<Exception>, b: seq<Exception>, findings: seq<Finding>)
    requires Accepts(calendar, today, a, findings) && Accepts(calendar, today, b, findings)
    ensures multiset(Keys(a)) == multiset(Keys(b))
  {
    hide GoodException, FirstSeverity, RelevantKeys, Distinct;
    OnceEachIsTheSet(Keys(a), RelevantKeys(findings));
    OnceEachIsTheSet(Keys(b), RelevantKeys(findings));
  }

  /** An accepted list stays accepted on every earlier day. */
  lemma AcceptedEarlier(calendar: Calendar, today: int, earlier: int, exceptions: seq<Exception>, findings: seq<Finding>)
    requires earlier <= today && Accepts(calendar, today, exceptions, findings)
    ensures Accepts(calendar, earlier, exceptions, findings)
  {
    hide GoodException, FirstSeverity, RelevantKeys, Distinct;
  }

  /** Findings with one key have one severity. */
  predicate SeveritiesAgree(findings: seq<Finding>) {
    forall f <- findings, g <- findings :: Relevant(f) && Relevant(g) && FindingKey(f) == FindingKey(g) ==>
      NormalizeSeverity(f.severity) == NormalizeSeverity(g.severity)
  }

  lemma {:induction false} FirstIsAFinding(findings: seq<Finding>, key: Key) returns (f: Finding)
    requires FirstSeverity(findings, key).Some?
    ensures f in findings && Relevant(f) && FindingKey(f) == key && FirstSeverity(findings, key) == Some(NormalizeSeverity(f.severity))
  {
    if Relevant(findings[0]) && FindingKey(findings[0]) == key {
      f := findings[0];
    } else {
      f := FirstIsAFinding(findings[1..], key);
    }
  }

  lemma {:induction false} FirstIfAny(findings: seq<Finding>, key: Key)
    ensures FirstSeverity(findings, key).Some? <==> key in RelevantKeys(findings)
  {
    if findings != [] {
      FirstIfAny(findings[1..], key);
      assert findings == [findings[0]] + findings[1..];
    }
  }

  lemma SameFirst(a: seq<Finding>, b: seq<Finding>, key: Key)
    requires (forall f :: f in a <==> f in b) && SeveritiesAgree(a)
    ensures FirstSeverity(a, key) == FirstSeverity(b, key)
    ensures RelevantKeys(a) == RelevantKeys(b)
  {
    hide Relevant, FindingKey, NormalizeSeverity, FirstSeverity;
    FirstIfAny(a, key);
    FirstIfAny(b, key);
    if FirstSeverity(a, key).Some? {
      var f := FirstIsAFinding(a, key);
      var g := FirstIsAFinding(b, key);
    }
  }

  /** When findings with one key agree on its severity, neither their order nor repeating them matters. */
  lemma OrderDoesNotMatterIfSeveritiesAgree(
    calendar: Calendar, today: int, exceptions: seq<Exception>, a: seq<Finding>, b: seq<Finding>)
    requires (forall f :: f in a <==> f in b) && SeveritiesAgree(a)
    ensures Accepts(calendar, today, exceptions, a) <==> Accepts(calendar, today, exceptions, b)
  {
    hide SeveritiesAgree, Relevant, FindingKey, RelevantKeys, FirstSeverity, ExceptionKey, ExceptionSeverity, GoodException, EntryOf, Distinct;
    SameFirst(a, b, ("", ""));
    forall key ensures FirstSeverity(a, key) == FirstSeverity(b, key) {
      SameFirst(a, b, key);
    }
    assert forall f <- a :: f in b;
    assert forall f <- b :: f in a;
  }

  lemma GoodKey(calendar: Calendar, e: Exception)
    requires GoodException(calendar, e)
    ensures ExceptionKey(e).0 != "" && ExceptionKey(e).1 != ""
  {
  }

  lemma {:induction false} StripRightEnds(s: string)
    ensures StripRight(s) != "" ==> !IsSpace(StripRight(s)[|StripRight(s)| - 1])
  {
    if s != "" && IsSpace(s[|s| - 1]) {
      StripRightEnds(s[..|s| - 1]);
    }
  }

  lemma StripEnds(s: string)
    ensures var r := Strip(s); r != "" ==> !IsSpace(r[0]) && !IsSpace(r[|r| - 1])
  {
    StripRightEnds(StripLeft(s));
    StripRightKeeps(StripLeft(s));
    hide IsSpace, StripRight;
  }

  lemma StrippedIsTrimmed(s: string)
    ensures Strip(Strip(s)) == Strip(s)
  {
    StripEnds(s);
    if Strip(s) != "" {
      hide Strip;
      StripTrimmed(Strip(s));
    }
  }

  /** What a key or severity was normalised to is normal. */
  lemma LoweredIsNormal(s: string)
    ensures Lower(Strip(Lower(Strip(s)))) == Lower(Strip(s))
  {
    StripEnds(s);
    var r := Strip(s);
    var low := Lower(r);
    assert Lower(low) == low;
    if r != "" {
      assert IsSpace(low[0]) <==> IsSpace(r[0]);
      assert IsSpace(low[|low| - 1]) <==> IsSpace(r[|r| - 1]);
      hide Strip;
      StripTrimmed(low);
    }
  }

  /** The exception list that accepts a finding with this key and severity. */
  function ExceptionFor(key: Key, severity: string, day: string): Exception {
    map["package" := key.0, "advisory" := key.1, "severity" := severity, "mitigation" := "upgrade", "expires_on" := day]
  }

  /** Some date the calendar knows is not before today. */
  ghost predicate HasDay(calendar: Calendar, today: int) {
    exists day: string :: day != "" && calendar(day).Some? && today <= calendar(day).value
  }

  /** Some exception list gets another verdict when the findings are reported in another order. */
  ghost predicate OrderMatters(calendar: Calendar, today: int, findings: seq<Finding>) {
    exists exceptions, other: seq<Finding> :: multiset(other) == multiset(findings) &&
      Accepts(calendar, today, exceptions, findings) != Accepts(calendar, today, exceptions, other)
  }

  /** Every finding that is looked at has a package and an advisory. */
  predicate AllKeyed(findings: seq<Finding>) {
    forall f <- findings :: Relevant(f) ==> FindingKey(f).0 != "" && FindingKey(f).1 != ""
  }

  lemma ExceptionForIsGood(calendar: Calendar, f: Finding, day: string)
    requires Relevant(f) && FindingKey(f).0 != "" && FindingKey(f).1 != "" && day != "" && calendar(day).Some?
    ensures var e := ExceptionFor(FindingKey(f), NormalizeSeverity(f.severity), day);
            && GoodException(calendar, e) && EntryOf(calendar, e).expires == calendar(day).value
            && ExceptionKey(e) == FindingKey(f) && ExceptionSeverity(e) == NormalizeSeverity(f.severity) != ""
  {
    hide Strip, Lower, FindingKey, ExceptionFor, GoodException, EntryOf, ExceptionKey, ExceptionSeverity, Field;
    KeyIsNormal(f);
    LoweredIsNormal(f.severity);
    HighIsNotBlank(f);
    NormalExceptionIsGood(calendar, FindingKey(f), NormalizeSeverity(f.severity), day);
  }

  lemma HighIsNotBlank(f: Finding)
    requires Relevant(f)
    ensures NormalizeSeverity(f.severity) != ""
  {
    hide NormalizeSeverity;
  }

  lemma NormalExceptionIsGood(calendar: Calendar, key: Key, severity: string, day: string)
    requires Strip(key.0) == key.0 != "" && Lower(Strip(key.1)) == key.1 != ""
    requires Lower(Strip(severity)) == severity != "" && day != "" && calendar(day).Some?
    ensures var e := ExceptionFor(key, severity, day);
            && GoodException(calendar, e) && EntryOf(calendar, e).expires == calendar(day).value
            && ExceptionKey(e) == key && ExceptionSeverity(e) == severity
  {
    hide Strip, Lower, ExceptionFor, Field;
    FieldsOfException(key, severity, day);
  }

  lemma FieldsOfException(key: Key, severity: string, day: string)
    ensures var e := ExceptionFor(key, severity, day);
            && Field(e, "package") == key.0 && Field(e, "advisory") == key.1 && Field(e, "severity") == severity
            && Field(e, "mitigation") == "upgrade" && Field(e, "expires_on") == day
  {
  }

  lemma KeyIsNormal(f: Finding)
    ensures var key := FindingKey(f); Strip(key.0) == key.0 && Lower(Strip(key.1)) == key.1
  {
    hide Strip, Lower;
    NormalIsStripped(f.name);
    NormalIsStripped(f.advisory);
    var name := NormalText(f.name);
    var advisory := NormalText(f.advisory);
    StrippedIsTrimmed(name);
    LoweredIsNormal(advisory);
  }

  function NormalText(v: Value): string {
    match v
    case Null => ""
    case Text(t) => t
    case Number(d) => d
  }

  lemma NormalIsStripped(v: Value)
    ensures Normal(v) == Strip(NormalText(v))
  {
  }

  lemma AcceptedNeedsDay(calendar: Calendar, today: int, exceptions: seq<Exception>, findings: seq<Finding>, f: Finding)
    requires Accepts(calendar, today, exceptions, findings) && f in findings && Relevant(f)
    ensures FindingKey(f).0 != "" && FindingKey(f).1 != "" && HasDay(calendar, today)
  {
    hide Relevant, FindingKey, FirstSeverity, Distinct;
    assert FindingKey(f) in RelevantKeys(findings);
    var e := ExceptionWithKey(exceptions, FindingKey(f));
    assert GoodException(calendar, e);
    assert "expires_on" in REQUIRED_FIELDS;
    var day := Field(e, "expires_on");
    assert day != "" && calendar(day).Some? && today <= calendar(day).value;
  }

  /** One exception for each key, with the severity of its first finding. */
  function ListFor(findings: seq<Finding>, day: string): seq<Exception> {
    if findings == [] then [] else
    var init, last := findings[..|findings| - 1], findings[|findings| - 1];
    ListFor(init, day) +
    if Relevant(last) && FindingKey(last) !in RelevantKeys(init)
    then [ExceptionFor(FindingKey(last), NormalizeSeverity(last.severity), day)] else []
  }

  lemma {:induction false} FirstSeveritySnoc(findings: seq<Finding>, f: Finding, key: Key)
    ensures FirstSeverity(findings + [f], key) ==
            if FirstSeverity(findings, key).Some? then FirstSeverity(findings, key)
            else if Relevant(f) && FindingKey(f) == key then Some(NormalizeSeverity(f.severity)) else None
  {
    hide Relevant, FindingKey, NormalizeSeverity;
    if findings == [] {
      assert [] + [f] == [f];
    } else {
      assert (findings + [f])[1..] == findings[1..] + [f];
      FirstSeveritySnoc(findings[1..], f, key);
    }
  }

  lemma RelevantKeysSnoc(findings: seq<Finding>, f: Finding)
    ensures RelevantKeys(findings + [f]) == RelevantKeys(findings) + if Relevant(f) then {FindingKey(f)} else {}
  {
    hide Relevant, FindingKey;
    assert forall x :: x in findings + [f] <==> x in findings || x == f;
  }

  /** An accepted list and one more finding: a new key needs one more exception. */
  lemma AcceptsSnoc(calendar: Calendar, today: int, exceptions: seq<Exception>, findings: seq<Finding>, f: Finding, e: Exception)
    requires Accepts(calendar, today, exceptions, findings) && (Relevant(f) ==> FindingKey(f).1 != "")
    ensures !Relevant(f) || FindingKey(f) in RelevantKeys(findings) ==> Accepts(calendar, today, exceptions, findings + [f])
    ensures GoodException(calendar, e) && today <= EntryOf(calendar, e).expires && Relevant(f) && ExceptionKey(e) == FindingKey(f)
            && ExceptionSeverity(e) == NormalizeSeverity(f.severity) && FindingKey(f) !in RelevantKeys(findings) ==>
              Accepts(calendar, today, exceptions + [e], findings + [f])
  {
    hide Relevant, FindingKey, NormalizeSeverity, ExceptionKey, ExceptionSeverity, GoodException, EntryOf, FirstSeverity, RelevantKeys, Distinct, Keys, Elements;
    RelevantKeysSnoc(findings, f);
    KeysSnoc(exceptions, e);
    forall key
      ensures FirstSeverity(findings + [f], key) ==
              if FirstSeverity(findings, key).Some? then FirstSeverity(findings, key)
              else if Relevant(f) && FindingKey(f) == key then Some(NormalizeSeverity(f.severity)) else None
      ensures FirstSeverity(findings, key).Some? <==> key in RelevantKeys(findings)
    {
      FirstSeveritySnoc(findings, f, key);
      FirstIfAny(findings, key);
    }
    assert forall x :: x in findings + [f] <==> x in findings || x == f;
    assert forall x :: x in exceptions + [e] <==> x in exceptions || x == e;
    forall key ensures key in Elements(Keys(exceptions)) <==> key in Keys(exceptions) {
      InElements(Keys(exceptions), key);
    }
  }

  lemma InElements(keys: seq<Key>, key: Key)
    ensures key in Elements(keys) <==> key in keys
  {
  }

  lemma {:induction false} ListForIsAccepted(calendar: Calendar, today: int, findings: seq<Finding>, day: string)
    requires AllKeyed(findings) && day != "" && calendar(day).Some? && today <= calendar(day).value
    ensures Accepts(calendar, today, ListFor(findings, day), findings)
  {
    hide Accepts, Relevant, FindingKey, NormalizeSeverity, ExceptionFor, ExceptionKey, ExceptionSeverity, GoodException, EntryOf, RelevantKeys;
    if findings == [] {
      NothingIsAccepted(calendar, today);
    } else {
      var init, last := findings[..|findings| - 1], findings[|findings| - 1];
      assert findings == init + [last];
      ListForIsAccepted(calendar, today, init, day);
      var e := ExceptionFor(FindingKey(last), NormalizeSeverity(last.severity), day);
      if Relevant(last) {
        assert last in findings;
        ExceptionForIsGood(calendar, last, day);
      }
      AcceptsSnoc(calendar, today, ListFor(init, day), init, last, e);
      assert ListFor(init, day) + [] == ListFor(init, day);
    }
  }

  lemma NothingIsAccepted(calendar: Calendar, today: int)
    ensures Accepts(calendar, today, [], [])
  {
    assert Keys([]) == [] && Elements(Keys([])) == {};
  }

  /** The finding reported first instead of later. */
  lemma MovedToFront(findings: seq<Finding>, h: Finding) returns (other: seq<Finding>)
    requires h in findings && Relevant(h)
    ensures multiset(other) == multiset(findings)
    ensures FirstSeverity(other, FindingKey(h)) == Some(NormalizeSeverity(h.severity))
  {
    hide Relevant, FindingKey, NormalizeSeverity;
    var k :| 0 <= k < |findings| && findings[k] == h;
    other := [h] + Without(findings, k);
    WithoutOne(findings, k);
  }

  lemma OtherFirstRejects(
    calendar: Calendar, today: int, exceptions: seq<Exception>, a: seq<Finding>, b: seq<Finding>, key: Key)
    requires Accepts(calendar, today, exceptions, a) && key in RelevantKeys(a) && FirstSeverity(b, key) != FirstSeverity(a, key)
    requires forall e <- exceptions :: ExceptionSeverity(e) != ""
    ensures !Accepts(calendar, today, exceptions, b)
  {
    hide Relevant, FindingKey, RelevantKeys, FirstSeverity, ExceptionSeverity, EntryOf, GoodException, Distinct;
    var e := ExceptionWithKey(exceptions, key);
  }

  lemma {:induction false} ListForHasSeverities(calendar: Calendar, findings: seq<Finding>, day: string)
    requires AllKeyed(findings) && day != "" && calendar(day).Some?
    ensures forall e <- ListFor(findings, day) :: ExceptionSeverity(e) != ""
  {
    hide Relevant, FindingKey, NormalizeSeverity, ExceptionFor, ExceptionKey, ExceptionSeverity, GoodException, EntryOf, RelevantKeys;
    if findings != [] {
      var init, last := findings[..|findings| - 1], findings[|findings| - 1];
      assert findings == init + [last];
      ListForHasSeverities(calendar, init, day);
      if Relevant(last) {
        assert last in findings;
        ExceptionForIsGood(calendar, last, day);
      }
    }
  }

  /** The order of the findings can change the verdict, for some exception list, exactly when two of
      them with one key differ in severity, every key is complete, and the calendar has a date that has
      not passed. */
  lemma OrderMattersIff(calendar: Calendar, today: int, findings: seq<Finding>)
    ensures OrderMatters(calendar, today, findings) <==>
            !SeveritiesAgree(findings) && AllKeyed(findings) && HasDay(calendar, today)
  {
    if OrderMatters(calendar, today, findings) {
      OrderMattersOnly(calendar, today, findings);
    }
    if !SeveritiesAgree(findings) && AllKeyed(findings) && HasDay(calendar, today) {
      OrderMattersThen(calendar, today, findings);
    }
  }

  lemma OrderMattersOnly(calendar: Calendar, today: int, findings: seq<Finding>)
    requires OrderMatters(calendar, today, findings)
    ensures !SeveritiesAgree(findings) && AllKeyed(findings) && HasDay(calendar, today)
  {
    hide Relevant, FindingKey, NormalizeSeverity, Accepts, HasDay;
    var exceptions, other: seq<Finding> :| multiset(other) == multiset(findings) &&
      Accepts(calendar, today, exceptions, findings) != Accepts(calendar, today, exceptions, other);
    forall f ensures f in findings <==> f in other {
      assert f in multiset(findings) <==> f in multiset(other);
    }
    if SeveritiesAgree(findings) {
      OrderDoesNotMatterIfSeveritiesAgree(calendar, today, exceptions, findings, other);
    }
    var accepted := if Accepts(calendar, today, exceptions, findings) then findings else other;
    forall f | f in findings && Relevant(f) ensures FindingKey(f).0 != "" && FindingKey(f).1 != "" && HasDay(calendar, today) {
      AcceptedNeedsDay(calendar, today, exceptions, accepted, f);
    }
  }

  lemma OrderMattersThen(calendar: Calendar, today: int, findings: seq<Finding>)
    requires !SeveritiesAgree(findings) && AllKeyed(findings) && HasDay(calendar, today)
    ensures OrderMatters(calendar, today, findings)
  {
    hide Relevant, FindingKey, NormalizeSeverity, Accepts, AllKeyed, FirstSeverity, ExceptionSeverity;
    var day :| day != "" && calendar(day).Some? && today <= calendar(day).value;
    var exceptions := ListFor(findings, day);
    ListForIsAccepted(calendar, today, findings, day);
    ListForHasSeverities(calendar, findings, day);
    var f, g :| f in findings && g in findings && Relevant(f) && Relevant(g) && FindingKey(f) == FindingKey(g)
      && NormalizeSeverity(f.severity) != NormalizeSeverity(g.severity);
    var h := if FirstSeverity(findings, FindingKey(f)) == Some(NormalizeSeverity(f.severity)) then g else f;
    var other := MovedToFront(findings, h);
    OtherFirstRejects(calendar, today, exceptions, findings, other, FindingKey(h));
  }
}
