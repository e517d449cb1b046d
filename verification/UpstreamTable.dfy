/**
 The mapping table of UPSTREAM.md.  A line is a row when its cells, separated by bars, have the
 form one of two regular expressions demands: the loose form read by the documentation tools and
 the strict form read by the finalizer.  White space does not cross a line break in this model.
 */
module UpstreamTable {
  import opened Strings
  import opened Wrappers
  import opened Versions
  import opened VersionTokens
  import opened Patterns

  /** A text file as its lines. */
  type Text = seq<string>

  datatype Row = Row(tag: string, status: string)

  const PLANNED := "planned"
  const PUBLISHED := "published"

  // ---------------------------------------------------------------- cells

  function Split(s: string): (cells: seq<string>)
    ensures cells != []
  {
    if s == "" then [""]
    else if s[0] == '|' then [""] + Split(s[1..])
    else [[s[0]] + Split(s[1..])[0]] + Split(s[1..])[1..]
  }

  function Join(cells: seq<string>): string {
    if cells == [] then ""
    else if |cells| == 1 then cells[0]
    else cells[0] + ("|" + Join(cells[1..]))
  }

  predicate NoBar(s: string) {
    forall i :: 0 <= i < |s| ==> s[i] != '|'
  }

  /** The text between backticks, when that is all the cell holds besides white space. */
  function Quoted(cell: string): Option<string> {
    var s := Strip(cell);
    if |s| >= 2 && s[0] == '`' && s[|s| - 1] == '`' then Some(s[1..|s| - 1]) else None
  }

  predicate AllLower(s: string) {
    forall i :: 0 <= i < |s| ==> 'a' <= s[i] <= 'z'
  }

  predicate AllHex(s: string) {
    forall i :: 0 <= i < |s| ==> IsDigit(s[i]) || 'a' <= s[i] <= 'f'
  }

  function TagCell(cell: string): Option<string> {
    match Quoted(cell)
    case Some(tag) => if ParseAll(GitTag, tag).Some? then Some(tag) else None
    case None => None
  }

  function StatusCell(cell: string): Option<string> {
    var s := Strip(cell);
    if s != "" && AllLower(s) then Some(s) else None
  }

  predicate NameCell(cell: string) {
    match Quoted(cell)
    case Some(name) => name != "" && '`' !in name
    case None => false
  }

  predicate CommitCell(cell: string) {
    match Quoted(cell)
    case Some(commit) => |commit| == 40 && AllHex(commit)
    case None => false
  }

  // ---------------------------------------------------------------- rows

  /** The row the documentation tools read from a line. */
  function LooseRow(line: string): Option<Row> {
    LooseCells(Split(line))
  }

  function LooseCells(cells: seq<string>): Option<Row> {
    var n := |cells|;
    if n < 5 || cells[0] != "" || cells[n - 1] != "" then None else
    match (TagCell(cells[1]), StatusCell(cells[n - 2]))
    case (Some(tag), Some(status)) => Some(Row(tag, status))
    case _ => None
  }

  /** The row the finalizer reads: official tag and commit columns are checked as well, and the
      overlay number is not 000.  The official tag may itself contain bars. */
  function StrictRow(line: string): Option<Row> {
    StrictCells(Split(line))
  }

  function StrictCells(cells: seq<string>): Option<Row> {
    var n := |cells|;
    if n < 6 || !NameCell(Join(cells[2..n - 3])) || !CommitCell(cells[n - 3]) then None else
    match LooseCells(cells)
    case Some(row) => if FinalizableTag(row.tag).Some? then Some(row) else None
    case None => None
  }

  /** `dict(UPSTREAM_ROW_RE.findall(text))`: a repeated tag keeps its last status. */
  function Statuses(text: Text): map<string, string> {
    if text == [] then map[] else
    var before := Statuses(text[..|text| - 1]);
    match LooseRow(text[|text| - 1])
    case Some(row) => before[row.tag := row.status]
    case None => before
  }

  /** The keys of that dictionary in insertion order. */
  function StatusTags(text: Text): (tags: seq<string>)
    ensures forall tag :: tag in tags <==> tag in Statuses(text)
  {
    if text == [] then [] else
    var before := StatusTags(text[..|text| - 1]);
    match LooseRow(text[|text| - 1])
    case Some(row) => if row.tag in before then before else before + [row.tag]
    case None => before
  }

  // ---------------------------------------------------------------- cells: splitting and joining

  lemma {:induction false} SplitNoBar(s: string)
    requires NoBar(s)
    ensures Split(s) == [s]
  {
    if s != "" {
      assert s == [s[0]] + s[1..];
      SplitNoBar(s[1..]);
    }
  }

  lemma {:induction false} SplitBar(x: string, y: string)
    requires NoBar(x)
    ensures Split(x + ("|" + y)) == [x] + Split(y)
  {
    var s := x + ("|" + y);
    if x == "" {
      assert s == "|" + y;
      assert s[1..] == y;
    } else {
      SplitBar(x[1..], y);
      assert s[1..] == x[1..] + ("|" + y);
      assert x == [x[0]] + x[1..];
    }
  }

  lemma {:induction false} SplitJoin(cells: seq<string>)
    requires cells != [] && forall i :: 0 <= i < |cells| ==> NoBar(cells[i])
    ensures Split(Join(cells)) == cells
  {
    if |cells| == 1 {
      SplitNoBar(cells[0]);
      assert cells == [cells[0]];
    } else {
      SplitJoin(cells[1..]);
      SplitBar(cells[0], Join(cells[1..]));
      assert cells == [cells[0]] + cells[1..];
    }
  }

  lemma {:induction false} JoinSplit(s: string)
    ensures Join(Split(s)) == s
    ensures forall i :: 0 <= i < |Split(s)| ==> NoBar(Split(s)[i])
  {
    if s != "" {
      var cells := Split(s[1..]);
      JoinSplit(s[1..]);
      if s[0] == '|' {
        assert Split(s)[1..] == cells;
        assert s == "" + ("|" + s[1..]);
      } else {
        var c := [s[0]];
        assert Split(s)[1..] == cells[1..];
        assert s == c + s[1..];
        if |cells| > 1 {
          Associate(c, cells[0], "|" + Join(cells[1..]));
        }
      }
    }
  }

  // ---------------------------------------------------------------- rewriting around a table

  /** An expression that cannot disturb a row: it applies only at the start of other lines, or its
      text contains no bar and it ends its literal with a character that occurs neither in a tag
      cell nor in a status cell. */
  predicate RowSafe(p: Pattern) {
    && p.literal != "" && NoBar(p.literal)
    && (p.anchored || (
        && p.tail.Literal? && NoBar(p.tail.text)
        && var z := p.literal[|p.literal| - 1];
           z != '`' && !IsSpace(z) && !IsVersionChar(z) && !('a' <= z <= 'z')))
  }

  lemma {:induction false} NeverAnchored(p: Pattern, replacement: string, s: string)
    requires p.literal != "" && p.anchored
    ensures Subn(p, replacement, false, s) == (s, 0)
  {
    if s != "" {
      NeverAnchored(p, replacement, s[1..]);
      assert s == [s[0]] + s[1..];
    }
  }

  /** Every match leaves the last character of its literal in the result. */
  lemma MatchShows(p: Pattern, replacement: string, start: bool, s: string)
    requires p.literal != "" && MatchAt(p, start, s).Some?
    ensures p.literal[|p.literal| - 1] in s && p.literal[|p.literal| - 1] in Subn(p, replacement, start, s).0
  {
    var m := MatchAt(p, start, s).value;
    var text := Subn(p, replacement, false, m.rest).0;
    assert m.before[|p.literal| - 1] == s[|p.literal| - 1] == p.literal[|p.literal| - 1];
    assert Subn(p, replacement, start, s).0 == m.before + (replacement + (m.after + text));
  }

  lemma {:induction false} UnmatchedIsUnchanged(p: Pattern, replacement: string, start: bool, s: string)
    requires p.literal != ""
    requires p.literal[|p.literal| - 1] !in s || p.literal[|p.literal| - 1] !in Subn(p, replacement, start, s).0
    ensures Subn(p, replacement, start, s) == (s, 0)
    decreases |s|
  {
    if s != "" {
      if MatchAt(p, start, s).Some? {
        MatchShows(p, replacement, start, s);
      } else {
        var z, r := p.literal[|p.literal| - 1], Subn(p, replacement, false, s[1..]);
        assert Subn(p, replacement, start, s) == ([s[0]] + r.0, r.1);
        assert z in r.0 ==> z in [s[0]] + r.0;
        UnmatchedIsUnchanged(p, replacement, false, s[1..]);
        assert s == [s[0]] + s[1..];
      }
    }
  }

  lemma ParseBar(kind: Kind, x: string, y: string)
    ensures Parse(kind, x + ("|" + y)) ==
            match Parse(kind, x) case None => None case Some((q, rest)) => Some((q, rest + ("|" + y)))
  {
    hide WellFormed, Render, Parse;
    var bar := "|" + y;
    ParseRenders(kind, x);
    ParseRenders(kind, x + bar);
    if Parse(kind, x).Some? {
      var (q, rest) := Parse(kind, x).value;
      Associate(Render(kind, q), rest, bar);
      RenderParses(kind, q, rest + bar);
    } else if Parse(kind, x + bar).Some? {
      var (q, rest) := Parse(kind, x + bar).value;
      var w := Render(kind, q);
      VersionChars(kind, q);
      assert forall i :: 0 <= i < |w| ==> (x + bar)[i] == w[i];
      assert (x + bar)[|x|] == '|';
      assert |w| <= |x|;
      assert x == w + x[|w|..];
      RenderParses(kind, q, x[|w|..]);
    }
  }

  lemma PrefixBar(t: string, x: string, y: string)
    requires NoBar(t)
    ensures t <= x + ("|" + y) <==> t <= x
  {
    if t <= x + ("|" + y) {
      assert forall i :: 0 <= i < |t| ==> (x + ("|" + y))[i] == t[i];
      assert (x + ("|" + y))[|x|] == '|';
    }
  }

  lemma {:induction false} SpaceRunBar(x: string, y: string)
    ensures SpaceRun(x + ("|" + y)) == SpaceRun(x)
  {
    if x != "" {
      assert (x + ("|" + y))[1..] == x[1..] + ("|" + y);
      SpaceRunBar(x[1..], y);
    } else {
      assert x + ("|" + y) == "|" + y;
    }
  }

  /** No match reaches across a bar. */
  lemma MatchBar(p: Pattern, start: bool, x: string, y: string)
    requires RowSafe(p) && !p.anchored
    ensures MatchAt(p, start, x + ("|" + y)) ==
            match MatchAt(p, start, x) case None => None case Some(m) => Some(m.(rest := m.rest + ("|" + y)))
  {
    hide Parse, SpaceRun, Render;
    var s, n := x + ("|" + y), |p.literal|;
    PrefixBar(p.literal, x, y);
    if p.literal <= x {
      assert s[n..] == x[n..] + ("|" + y);
      SpaceRunBar(x[n..], y);
      assert Front(p, start, s) == Front(p, start, x);
      if Front(p, start, x).Some? {
        var at := Front(p, start, x).value;
        assert s[at..] == x[at..] + ("|" + y) && s[..at] == x[..at];
        ParseBar(p.kind, x[at..], y);
        if Parse(p.kind, x[at..]).Some? {
          var (q, rest) := Parse(p.kind, x[at..]).value;
          PrefixBar(p.tail.text, rest, y);
          if p.tail.text <= rest {
            var k := |p.tail.text|;
            assert (rest + ("|" + y))[k..] == rest[k..] + ("|" + y);
            assert (rest + ("|" + y))[..k] == rest[..k];
          }
        }
      }
    }
  }

  ghost predicate DividedByBar(p: Pattern, replacement: string, start: bool, x: string, y: string)
    requires p.literal != ""
  {
    var (left, n) := Subn(p, replacement, start, x);
    var (right, m) := Subn(p, replacement, false, y);
    Subn(p, replacement, start, x + ("|" + y)) == (left + ("|" + right), n + m)
  }

  lemma DividedAtMatch(p: Pattern, replacement: string, start: bool, x: string, y: string, m: Match)
    requires p.literal != "" && MatchAt(p, start, x) == Some(m)
    requires MatchAt(p, start, x + ("|" + y)) == Some(m.(rest := m.rest + ("|" + y)))
    requires DividedByBar(p, replacement, false, m.rest, y)
    ensures DividedByBar(p, replacement, start, x, y)
  {
    hide Subn, MatchAt;
    SubnHead(p, replacement, start, x, m);
    SubnHead(p, replacement, start, x + ("|" + y), m.(rest := m.rest + ("|" + y)));
    var text, right := Subn(p, replacement, false, m.rest).0, "|" + Subn(p, replacement, false, y).0;
    assert Subn(p, replacement, false, m.rest + ("|" + y)).0 == text + right;
    Associate(m.after, text, right);
    Associate(replacement, m.after + text, right);
    Associate(m.before, replacement + (m.after + text), right);
  }

  lemma DividedAtSkip(p: Pattern, replacement: string, start: bool, x: string, y: string)
    requires p.literal != "" && x != "" && MatchAt(p, start, x) == None == MatchAt(p, start, x + ("|" + y))
    requires DividedByBar(p, replacement, false, x[1..], y)
    ensures DividedByBar(p, replacement, start, x, y)
  {
    hide Subn, MatchAt;
    var s := x + ("|" + y);
    assert s[0] == x[0] && s[1..] == x[1..] + ("|" + y);
    SubnSkip(p, replacement, start, x);
    SubnSkip(p, replacement, start, s);
    var text, right := Subn(p, replacement, false, x[1..]).0, "|" + Subn(p, replacement, false, y).0;
    Associate([x[0]], text, right);
  }

  /** So a bar divides the rewriting of a line. */
  lemma {:induction false} SubnBar(p: Pattern, replacement: string, start: bool, x: string, y: string)
    requires p.literal != "" && RowSafe(p) && !p.anchored
    ensures DividedByBar(p, replacement, start, x, y)
    decreases |x|
  {
    MatchBar(p, start, x, y);
    if x == "" {
      var s := x + ("|" + y);
      assert s == "|" + y && s[1..] == y;
      SubnSkip(p, replacement, start, s);
      assert [s[0]] + Subn(p, replacement, false, y).0 == "" + ("|" + Subn(p, replacement, false, y).0);
    } else {
      hide DividedByBar, Subn, RowSafe;
      match MatchAt(p, start, x) {
        case Some(m) =>
          SubnBar(p, replacement, false, m.rest, y);
          DividedAtMatch(p, replacement, start, x, y, m);
        case None =>
          SubnBar(p, replacement, false, x[1..], y);
          DividedAtSkip(p, replacement, start, x, y);
      }
    }
  }

  lemma NoBarConcat(a: string, b: string)
    ensures NoBar(a + b) <==> NoBar(a) && NoBar(b)
  {
    if NoBar(a + b) {
      assert forall i :: 0 <= i < |a| ==> (a + b)[i] == a[i];
      assert forall i :: 0 <= i < |b| ==> (a + b)[|a| + i] == b[i];
    }
  }

  lemma {:induction false} SubnNoBar(p: Pattern, replacement: string, start: bool, s: string)
    requires p.literal != "" && NoBar(s) && NoBar(replacement)
    ensures NoBar(Subn(p, replacement, start, s).0)
    decreases |s|
  {
    if s == "" {
      return;
    }
    hide MatchAt, Subn;
    if MatchAt(p, start, s).Some? {
      var m := MatchAt(p, start, s).value;
      MatchIsCut(p, start, s);
      SubnHead(p, replacement, start, s, m);
      hide NoBar;
      NoBarConcat(m.before, m.version + (m.after + m.rest));
      NoBarConcat(m.version, m.after + m.rest);
      NoBarConcat(m.after, m.rest);
      SubnNoBar(p, replacement, false, m.rest);
      var text := Subn(p, replacement, false, m.rest).0;
      NoBarConcat(m.after, text);
      NoBarConcat(replacement, m.after + text);
      NoBarConcat(m.before, replacement + (m.after + text));
    } else {
      SubnSkip(p, replacement, start, s);
      NoBarConcat([s[0]], s[1..]);
      assert s == [s[0]] + s[1..];
      hide NoBar;
      SubnNoBar(p, replacement, false, s[1..]);
      NoBarConcat([s[0]], Subn(p, replacement, false, s[1..]).0);
    }
  }

  /** A match cuts the text into its pieces. */
  lemma MatchIsCut(p: Pattern, start: bool, s: string)
    ensures MatchAt(p, start, s).Some? ==>
              var m := MatchAt(p, start, s).value;
              s == m.before + (m.version + (m.after + m.rest))
  {
    hide Parse, Front, TakeTail, Render;
    if MatchAt(p, start, s).Some? {
      var m := MatchAt(p, start, s).value;
      var at := Front(p, start, s).value;
      ParseRenders(p.kind, s[at..]);
      assert s == s[..at] + s[at..];
      var (q, s3) := Parse(p.kind, s[at..]).value;
      assert s3 == m.after + m.rest;
    }
  }

  // ---------------------------------------------------------------- rows survive rewriting

  function SubnCells(p: Pattern, replacement: string, cells: seq<string>): seq<string>
    requires p.literal != ""
  {
    seq(|cells|, i requires 0 <= i < |cells| => Subn(p, replacement, false, cells[i]).0)
  }

  lemma JoinCons(cell: string, rest: seq<string>)
    requires rest != []
    ensures Join([cell] + rest) == cell + ("|" + Join(rest))
  {
    assert ([cell] + rest)[1..] == rest;
  }

  lemma {:induction false} SubnJoin(p: Pattern, replacement: string, cells: seq<string>)
    requires p.literal != "" && RowSafe(p) && !p.anchored
    ensures Subn(p, replacement, false, Join(cells)).0 == Join(SubnCells(p, replacement, cells))
  {
    if |cells| <= 1 {
      return;
    }
    hide Subn, RowSafe, Join, DividedByBar;
    var rest := cells[1..];
    SubnJoin(p, replacement, rest);
    SubnJoinStep(p, replacement, cells[0], rest);
    assert cells == [cells[0]] + rest;
  }

  lemma SubnJoinStep(p: Pattern, replacement: string, cell: string, rest: seq<string>)
    requires p.literal != "" && RowSafe(p) && !p.anchored && rest != []
    requires Subn(p, replacement, false, Join(rest)).0 == Join(SubnCells(p, replacement, rest))
    ensures Subn(p, replacement, false, Join([cell] + rest)).0 == Join(SubnCells(p, replacement, [cell] + rest))
  {
    hide Subn, RowSafe, Join;
    SubnBar(p, replacement, false, cell, Join(rest));
    JoinCons(cell, rest);
    JoinCons(Subn(p, replacement, false, cell).0, SubnCells(p, replacement, rest));
    assert SubnCells(p, replacement, [cell] + rest) ==
           [Subn(p, replacement, false, cell).0] + SubnCells(p, replacement, rest);
  }

  lemma StartIrrelevant(p: Pattern, replacement: string, s: string)
    requires p.literal != "" && !p.anchored
    ensures Subn(p, replacement, true, s) == Subn(p, replacement, false, s)
  {
    MatchAnywhere(p, s);
    if s != "" {
      hide Subn, MatchAt;
      match MatchAt(p, true, s) {
        case Some(m) =>
          SubnHead(p, replacement, true, s, m);
          SubnHead(p, replacement, false, s, m);
        case None =>
          SubnSkip(p, replacement, true, s);
          SubnSkip(p, replacement, false, s);
      }
    }
  }

  lemma MatchAnywhere(p: Pattern, s: string)
    requires !p.anchored
    ensures MatchAt(p, true, s) == MatchAt(p, false, s)
  {
    assert Front(p, true, s) == Front(p, false, s);
    hide Front, TakeTail, Parse, Render;
  }

  lemma {:induction false} StripRightChars(s: string, c: char)
    requires c in s
    ensures IsSpace(c) || c in StripRight(s)
  {
    if s != "" && IsSpace(s[|s| - 1]) {
      if c != s[|s| - 1] {
        assert s == s[..|s| - 1] + [s[|s| - 1]];
        StripRightChars(s[..|s| - 1], c);
      }
    }
  }

  lemma StripChars(s: string, c: char)
    requires c in s
    ensures IsSpace(c) || c in Strip(s)
  {
    var n := SpaceRun(s);
    assert s == s[..n] + s[n..];
    if c in s[n..] {
      StripRightChars(s[n..], c);
    }
  }

  lemma TagChars(tag: string, c: char)
    requires ParseAll(GitTag, tag).Some? && c in tag
    ensures IsVersionChar(c)
  {
    hide ParseAll, Render;
    var q := ParseAll(GitTag, tag).value;
    ParseAllIffRendered(GitTag, tag, q);
    VersionChars(GitTag, q);
  }

  lemma CellChars(cell: string, c: char)
    requires c in cell
    ensures TagCell(cell).Some? ==> IsSpace(c) || c == '`' || IsVersionChar(c)
    ensures StatusCell(cell).Some? ==> IsSpace(c) || 'a' <= c <= 'z'
  {
    hide ParseAll, Strip, IsVersionChar;
    StripChars(cell, c);
    if TagCell(cell).Some? && !IsSpace(c) {
      var tag, s := TagCell(cell).value, Strip(cell);
      assert s == ['`'] + tag + ['`'];
      if c != '`' {
        TagChars(tag, c);
      }
    }
  }

  /** No cell that matters for a row is touched, and none becomes one. */
  lemma CellSurvives(p: Pattern, replacement: string, cell: string)
    requires RowSafe(p) && !p.anchored
    ensures var after := Subn(p, replacement, false, cell).0;
            && (after == "" <==> cell == "")
            && TagCell(after) == TagCell(cell) && StatusCell(after) == StatusCell(cell)
  {
    hide Subn, TagCell, StatusCell;
    var z, after := p.literal[|p.literal| - 1], Subn(p, replacement, false, cell).0;
    if z in cell && z in after {
      CellChars(cell, z);
      CellChars(after, z);
    } else {
      UnmatchedIsUnchanged(p, replacement, false, cell);
    }
  }

  lemma CellsSurvive(p: Pattern, replacement: string, cells: seq<string>)
    requires RowSafe(p) && !p.anchored
    ensures LooseCells(SubnCells(p, replacement, cells)) == LooseCells(cells)
  {
    hide Subn, TagCell, StatusCell;
    var after := SubnCells(p, replacement, cells);
    forall i | 0 <= i < |cells|
      ensures after[i] == "" <==> cells[i] == ""
      ensures TagCell(after[i]) == TagCell(cells[i]) && StatusCell(after[i]) == StatusCell(cells[i])
    {
      CellSurvives(p, replacement, cells[i]);
    }
  }

  lemma HeadOfRow(line: string)
    ensures Split(line)[0] == "" <==> line == "" || line[0] == '|'
  {
  }

  /** Rewriting a line never changes the row read from it. */
  lemma RowSurvives(p: Pattern, replacement: string, line: string)
    requires RowSafe(p) && NoBar(replacement)
    ensures LooseRow(Subn(p, replacement, true, line).0) == LooseRow(line)
  {
    var after := Subn(p, replacement, true, line).0;
    if p.anchored {
      if MatchAt(p, true, line).Some? {
        var m := MatchAt(p, true, line).value;
        SubnHead(p, replacement, true, line, m);
        assert line[0] == p.literal[0] == m.before[0] == after[0];
        HeadOfRow(line);
        HeadOfRow(after);
      } else if line != "" {
        NeverAnchored(p, replacement, line[1..]);
        assert line == [line[0]] + line[1..];
      }
    } else {
      var cells := Split(line);
      JoinSplit(line);
      StartIrrelevant(p, replacement, line);
      SubnJoin(p, replacement, cells);
      var rewritten := SubnCells(p, replacement, cells);
      forall i | 0 <= i < |cells| ensures NoBar(rewritten[i]) {
        SubnNoBar(p, replacement, false, cells[i]);
      }
      SplitJoin(rewritten);
      CellsSurvive(p, replacement, cells);
    }
  }
}
