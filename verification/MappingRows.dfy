/**
 The rows of UPSTREAM.md as the two regular expressions state them, piece by piece, against the readers
 that look at the cells between bars.
 */
module MappingRows {
  import opened Strings
  import opened Wrappers
  import opened Versions
  import opened UpstreamTable

  lemma AllHexIs(s: string)
    ensures AllHex(s) <==> AllIn(s, HEX)
  {
    Alphabets();
    hide HEX;
    if AllIn(s, HEX) {
      assert forall i :: 0 <= i < |s| ==> s[i] in s;
    }
  }

  lemma AllLowerIs(s: string)
    ensures AllLower(s) <==> AllIn(s, LOWER)
  {
    Alphabets();
    hide LOWER;
    if AllIn(s, LOWER) {
      assert forall i :: 0 <= i < |s| ==> s[i] in s;
    }
  }

  // ---------------------------------------------------------------- pieces

  /** A text in back ticks between white space. */
  ghost predicate Ticked(cell: string, text: string) {
    Padded(cell, "`" + text + "`")
  }

  /** A status between white space. */
  ghost predicate ShowsStatus(cell: string, status: string) {
    status != "" && AllIn(status, LOWER) && Padded(cell, status)
  }

  lemma TickedIff(cell: string, text: string)
    ensures Quoted(cell) == Some(text) <==> Ticked(cell, text)
  {
    var core := "`" + text + "`";
    StripIff(cell, core);
    var s := Strip(cell);
    hide Strip, Padded;
    if Quoted(cell) == Some(text) {
      assert s == core;
    }
    assert core[1..|core| - 1] == text;
  }

  lemma StatusIff(cell: string, status: string)
    ensures StatusCell(cell) == Some(status) <==> ShowsStatus(cell, status)
  {
    AllLowerIs(status);
    hide Strip, Padded, AllIn;
    if status != "" && AllLower(status) {
      assert 'a' <= status[0] <= 'z' && 'a' <= status[|status| - 1] <= 'z';
      StripIff(cell, status);
    }
  }

  // ---------------------------------------------------------------- cells and bars

  lemma SplitStep(c: char, rest: string)
    ensures Split([c] + rest) == if c == '|' then [""] + Split(rest) else [[c] + Split(rest)[0]] + Split(rest)[1..]
  {
    assert ([c] + rest)[1..] == rest;
  }

  lemma LongerFirst(c: char, a: seq<string>, b: seq<string>)
    requires a != []
    ensures [[c] + (a + b)[0]] + (a + b)[1..] == ([[c] + a[0]] + a[1..]) + b
  {
    assert (a + b)[1..] == a[1..] + b;
  }

  lemma {:induction false} SplitConcat(x: string, y: string)
    ensures Split(x + ("|" + y)) == Split(x) + Split(y)
  {
    if x == "" {
      assert x + ("|" + y) == ['|'] + y && Split("") == [""];
      SplitStep('|', y);
    } else {
      hide Split;
      var c, rest := x[0], x[1..];
      assert x == [c] + rest && x + ("|" + y) == [c] + (rest + ("|" + y));
      SplitConcat(rest, y);
      SplitStep(c, rest);
      SplitStep(c, rest + ("|" + y));
      var a, b := Split(rest), Split(y);
      if c == '|' {
        assert [""] + (a + b) == ([""] + a) + b;
      } else {
        LongerFirst(c, a, b);
      }
    }
  }

  lemma JoinOne(cell: string)
    ensures Join([cell]) == cell
  {
  }

  lemma {:induction false} JoinConcat(xs: seq<string>, ys: seq<string>)
    requires xs != [] && ys != []
    ensures Join(xs + ys) == Join(xs) + ("|" + Join(ys))
  {
    if |xs| == 1 {
      assert (xs + ys)[1..] == ys;
    } else {
      assert (xs + ys)[1..] == xs[1..] + ys;
      JoinConcat(xs[1..], ys);
      Associate("|", Join(xs[1..]), "|" + Join(ys));
      Associate(xs[0], "|" + Join(xs[1..]), "|" + Join(ys));
    }
  }

  /** Five pieces between six bars, the second and the third holding any text. */
  function LooseLine(a: string, between: string, d: string): string {
    "" + ("|" + (a + ("|" + (between + ("|" + (d + ("|" + "")))))))
  }

  lemma NoBarInNothing()
    ensures NoBar("")
  {
  }

  lemma SplitNothing()
    ensures Split("") == [""] && NoBar("")
  {
  }

  lemma LooseLineCells(a: string, between: string, d: string)
    requires NoBar(a) && NoBar(d)
    ensures Split(LooseLine(a, between, d)) == ["", a] + Split(between) + [d, ""]
  {
    hide Split, NoBar;
    var last := d + ("|" + "");
    var rest := between + ("|" + last);
    SplitNothing();
    SplitBar(d, "");
    SplitConcat(between, last);
    SplitBar(a, rest);
    SplitBar("", a + ("|" + rest));
    var middle := Split(between);
    assert Split(LooseLine(a, between, d)) == [""] + ([a] + (middle + ([d] + [""])));
  }

  lemma LooseLineOfCells(cells: seq<string>)
    requires |cells| >= 5 && cells[0] == "" && cells[|cells| - 1] == ""
    ensures Join(cells) == LooseLine(cells[1], Join(cells[2..|cells| - 2]), cells[|cells| - 2])
  {
    assert Join([""]) == "" && forall x: string :: Join([x]) == x;
    hide Join;
    var n := |cells|;
    var middle := cells[2..n - 2];
    assert cells == [""] + ([cells[1]] + (middle + ([cells[n - 2]] + [""])));
    JoinConcat([cells[n - 2]], [""]);
    JoinConcat(middle, [cells[n - 2]] + [""]);
    JoinConcat([cells[1]], middle + ([cells[n - 2]] + [""]));
    JoinConcat([""], [cells[1]] + (middle + ([cells[n - 2]] + [""])));
  }

  lemma BarFree(cell: string, text: string)
    requires Padded(cell, text) && NoBar(text)
    ensures NoBar(cell)
  {
    var left, right :| Blank(left) && Blank(right) && cell == left + text + right;
  }

  lemma TagHasNoBar(tag: string)
    requires ParseAll(GitTag, tag).Some?
    ensures NoBar(tag) && NoBar("`" + tag + "`")
  {
    hide ParseAll;
    forall i | 0 <= i < |tag| ensures tag[i] != '|' {
      TagChars(tag, tag[i]);
    }
  }

  /** The line is a row for the documentation tools: bars around a tag in back ticks, any text, and a
      status, with white space around tag and status. */
  ghost predicate IsLooseRow(line: string, tag: string, status: string) {
    exists a, between, d :: line == LooseLine(a, between, d) && Ticked(a, tag) && ShowsStatus(d, status)
  }

  lemma LooseRowIff(line: string, tag: string, status: string)
    ensures LooseRow(line) == Some(Row(tag, status)) <==> ParseAll(GitTag, tag).Some? && IsLooseRow(line, tag, status)
  {
    if LooseRow(line) == Some(Row(tag, status)) {
      LooseRowIsOne(line, tag, status);
    }
    if ParseAll(GitTag, tag).Some? && IsLooseRow(line, tag, status) {
      hide ParseAll, LooseRow;
      var a, between, d :| line == LooseLine(a, between, d) && Ticked(a, tag) && ShowsStatus(d, status);
      LooseLineIsRow(a, between, d, tag, status);
    }
  }

  lemma LooseRowIsOne(line: string, tag: string, status: string)
    requires LooseRow(line) == Some(Row(tag, status))
    ensures ParseAll(GitTag, tag).Some? && IsLooseRow(line, tag, status)
  {
    hide Quoted, StatusCell, ParseAll, Split, Join, Ticked, ShowsStatus, LooseLine;
    var cells := Split(line);
    var n := |cells|;
    JoinSplit(line);
    LooseLineOfCells(cells);
    TickedIff(cells[1], tag);
    StatusIff(cells[n - 2], status);
    assert line == LooseLine(cells[1], Join(cells[2..n - 2]), cells[n - 2]);
  }

  lemma StatusHasNoBar(status: string)
    requires AllIn(status, LOWER)
    ensures NoBar(status)
  {
    AllLowerIs(status);
  }

  lemma LooseLineIsRow(a: string, between: string, d: string, tag: string, status: string)
    requires ParseAll(GitTag, tag).Some? && Ticked(a, tag) && ShowsStatus(d, status)
    ensures LooseRow(LooseLine(a, between, d)) == Some(Row(tag, status))
  {
    TagHasNoBar(tag);
    BarFree(a, "`" + tag + "`");
    StatusHasNoBar(status);
    BarFree(d, status);
    TickedIff(a, tag);
    StatusIff(d, status);
    LooseLineCells(a, between, d);
    hide Quoted, StatusCell, ParseAll, Split, Join, Ticked, ShowsStatus, LooseLine;
    var cells := Split(LooseLine(a, between, d));
    assert |Split(between)| >= 1 && cells[1] == a && cells[|cells| - 2] == d;
  }

  // ---------------------------------------------------------------- the strict row

  function StrictLine(a: string, b: string, c: string, d: string): string {
    LooseLine(a, b + ("|" + c), d)
  }

  /** The line is a row for the finalizer: bars around a tag, the upstream tag, a commit and a status, the
      first three in back ticks, with white space around all four. */
  ghost predicate IsStrictRow(line: string, tag: string, name: string, commit: string, status: string) {
    && (exists a, b, c, d ::
          line == StrictLine(a, b, c, d) && Ticked(a, tag) && Ticked(b, name) && Ticked(c, commit) && ShowsStatus(d, status))
    && name != "" && '`' !in name && |commit| == 40 && AllIn(commit, HEX)
  }

  /** A tag with an overlay number other than 000. */
  ghost predicate IsRelease(tag: string) {
    exists p :: WellFormed(p) && p.custom != "000" && tag == Render(GitTag, p)
  }

  lemma IsReleaseIff(tag: string)
    ensures FinalizableTag(tag).Some? <==> IsRelease(tag)
    ensures IsRelease(tag) ==> ParseAll(GitTag, tag).Some?
  {
    hide ParseAll, Render, WellFormed;
    if ParseAll(GitTag, tag).Some? {
      ParseAllIffRendered(GitTag, tag, ParseAll(GitTag, tag).value);
    }
    if p :| WellFormed(p) && p.custom != "000" && tag == Render(GitTag, p) {
      ParseAllIffRendered(GitTag, tag, p);
    }
  }

  lemma StrictRowIff(line: string, tag: string, status: string)
    ensures StrictRow(line) == Some(Row(tag, status)) <==>
            IsRelease(tag) && exists name, commit :: IsStrictRow(line, tag, name, commit, status)
  {
    IsReleaseIff(tag);
    if StrictRow(line) == Some(Row(tag, status)) {
      StrictRowIsOne(line, tag, status);
    }
    hide StrictRow, IsRelease, FinalizableTag, IsStrictRow, ParseAll;
    if IsRelease(tag) && exists name, commit :: IsStrictRow(line, tag, name, commit, status) {
      var name, commit :| IsStrictRow(line, tag, name, commit, status);
      StrictLineIsRow(line, tag, name, commit, status);
    }
  }

  lemma StrictRowIsOne(line: string, tag: string, status: string)
    requires StrictRow(line) == Some(Row(tag, status))
    ensures FinalizableTag(tag).Some? && exists name, commit :: IsStrictRow(line, tag, name, commit, status)
  {
    hide Quoted, StatusCell, FinalizableTag, ParseAll, Split, Join, Ticked, ShowsStatus, LooseLine;
    var cells := Split(line);
    var n := |cells|;
    JoinSplit(line);
    LooseLineOfCells(cells);
    var b, c := Join(cells[2..n - 3]), cells[n - 3];
    assert cells[2..n - 2] == cells[2..n - 3] + [c];
    JoinConcat(cells[2..n - 3], [c]);
    JoinOne(c);
    assert line == StrictLine(cells[1], b, c, cells[n - 2]);
    var name, commit := Quoted(b).value, Quoted(c).value;
    TickedIff(cells[1], tag);
    TickedIff(b, name);
    TickedIff(c, commit);
    StatusIff(cells[n - 2], status);
    AllHexIs(commit);
    assert IsStrictRow(line, tag, name, commit, status);
  }

  lemma StrictLineIsRow(line: string, tag: string, name: string, commit: string, status: string)
    requires FinalizableTag(tag).Some? && ParseAll(GitTag, tag).Some? && IsStrictRow(line, tag, name, commit, status)
    ensures StrictRow(line) == Some(Row(tag, status))
  {
    hide Quoted, StatusCell, FinalizableTag, ParseAll, Split, Join, Ticked, ShowsStatus, LooseLine, AllIn, LooseCells;
    var a, b, c, d :| line == StrictLine(a, b, c, d) && Ticked(a, tag) && Ticked(b, name) && Ticked(c, commit) && ShowsStatus(d, status);
    LooseLineIsRow(a, b + ("|" + c), d, tag, status);
    PiecesHaveNoBar(a, c, d, tag, commit, status);
    StrictCellsAre(a, b, c, d);
    TickedIff(b, name);
    TickedIff(c, commit);
    AllHexIs(commit);
  }

  lemma HexHasNoBar(commit: string)
    requires AllIn(commit, HEX)
    ensures NoBar("`" + commit + "`")
  {
    AllHexIs(commit);
  }

  lemma PiecesHaveNoBar(a: string, c: string, d: string, tag: string, commit: string, status: string)
    requires ParseAll(GitTag, tag).Some? && Ticked(a, tag) && Ticked(c, commit) && AllIn(commit, HEX) && ShowsStatus(d, status)
    ensures NoBar(a) && NoBar(c) && NoBar(d)
  {
    TagHasNoBar(tag);
    HexHasNoBar(commit);
    StatusHasNoBar(status);
    hide ParseAll, AllIn, NoBar, Padded;
    BarFree(a, "`" + tag + "`");
    BarFree(d, status);
    BarFree(c, "`" + commit + "`");
  }

  lemma StrictCellsAre(a: string, b: string, c: string, d: string)
    requires NoBar(a) && NoBar(c) && NoBar(d)
    ensures var cells := Split(StrictLine(a, b, c, d));
            |cells| >= 6 && Join(cells[2..|cells| - 3]) == b && cells[|cells| - 3] == c
  {
    LooseLineCells(a, b + ("|" + c), d);
    SplitConcat(b, c);
    SplitNoBar(c);
    JoinSplit(b);
    hide Split, Join, LooseLine, NoBar;
    var cells := Split(StrictLine(a, b, c, d));
    assert cells == ["", a] + Split(b) + [c, d, ""];
    assert cells[2..|cells| - 3] == Split(b);
  }
}
