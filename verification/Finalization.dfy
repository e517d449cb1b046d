/**
 The planned-to-published transition of one row of UPSTREAM.md, as the finalizer detects it and as
 it produces it.
 */
module Finalization {
  import opened Strings
  import opened Wrappers
  import opened Versions
  import opened UpstreamTable

  datatype Error =
    | RepeatedRow
    | WrongTransitions(count: nat)
    | WrongReplacements(count: nat)

  // ---------------------------------------------------------------- reading transitions

  function StrictRows(text: Text): seq<Row> {
    if text == [] then [] else
    var before := StrictRows(text[..|text| - 1]);
    match StrictRow(text[|text| - 1])
    case Some(row) => before + [row]
    case None => before
  }

  function RowMap(rows: seq<Row>): map<string, string> {
    if rows == [] then map[] else RowMap(rows[..|rows| - 1])[rows[|rows| - 1].tag := rows[|rows| - 1].status]
  }

  predicate NoRepeats(rows: seq<Row>) {
    forall i, j :: 0 <= i < j < |rows| ==> rows[i].tag != rows[j].tag
  }

  /** What `mapping_statuses` returns, or its exception for a repeated row. */
  function MappingStatuses(text: Text): Result<map<string, string>, Error> {
    if NoRepeats(StrictRows(text)) then Ok(RowMap(StrictRows(text))) else Err(RepeatedRow)
  }

  method ReadMappingStatuses(text: Text) returns (r: Result<map<string, string>, Error>)
    ensures r == MappingStatuses(text)
  {
    hide StrictRow, NoRepeats, RowMap;
    var rows: map<string, string> := map[];
    ghost var seen: seq<Row> := [];
    NoRowsNoRepeats();
    for i := 0 to |text|
      invariant seen == StrictRows(text[..i]) && NoRepeats(seen) && rows == RowMap(seen)
    {
      assert text[..i + 1][..i] == text[..i];
      RowsExtend(text, i + 1);
      var found := StrictRow(text[i]);
      if found.Some? {
        var row := found.value;
        OneMoreRow(seen, row);
        if row.tag in rows {
          RepeatsStay(seen + [row], StrictRows(text));
          return Err(RepeatedRow);
        }
        rows := rows[row.tag := row.status];
        seen := seen + [row];
      }
    }
    assert text[..|text|] == text;
    r := Ok(rows);
  }

  lemma NoRowsNoRepeats()
    ensures NoRepeats([]) && RowMap([]) == map[]
  {
  }

  lemma {:induction false} RowMapKeys(rows: seq<Row>)
    ensures forall tag :: tag in RowMap(rows) <==> exists k :: 0 <= k < |rows| && rows[k].tag == tag
  {
    if rows != [] {
      var n := |rows| - 1;
      RowMapKeys(rows[..n]);
      forall tag ensures tag in RowMap(rows) <==> exists k :: 0 <= k < |rows| && rows[k].tag == tag {
        if tag in RowMap(rows[..n]) {
          var k :| 0 <= k < n && rows[..n][k].tag == tag;
          assert rows[k].tag == tag;
        }
        if k :| 0 <= k < n && rows[k].tag == tag {
          assert rows[..n][k].tag == tag;
        }
        assert rows[n].tag == tag ==> tag in RowMap(rows);
      }
    }
  }

  lemma OneMoreRow(seen: seq<Row>, row: Row)
    requires NoRepeats(seen)
    ensures NoRepeats(seen + [row]) <==> row.tag !in RowMap(seen)
    ensures RowMap(seen + [row]) == RowMap(seen)[row.tag := row.status]
  {
    RowMapKeys(seen);
    var longer := seen + [row];
    assert longer[..|seen|] == seen;
    if row.tag in RowMap(seen) {
      var k :| 0 <= k < |seen| && seen[k].tag == row.tag;
      assert longer[k].tag == longer[|seen|].tag;
    }
  }

  lemma RepeatsStay(a: seq<Row>, b: seq<Row>)
    requires a <= b && !NoRepeats(a)
    ensures !NoRepeats(b)
  {
    var i, j :| 0 <= i < j < |a| && a[i].tag == a[j].tag;
    assert b[i] == a[i] && b[j] == a[j];
  }

  lemma {:induction false} RowsExtend(text: Text, n: nat)
    requires n <= |text|
    ensures StrictRows(text[..n]) <= StrictRows(text)
  {
    hide StrictRow;
    if n < |text| {
      RowsExtend(text[..|text| - 1], n);
      assert text[..|text| - 1][..n] == text[..n];
    } else {
      assert text[..n] == text;
    }
  }

  /** The planned tags of `rows` that `head` shows as published, in row order. */
  function Transitions(rows: seq<Row>, head: map<string, string>): seq<string> {
    if rows == [] then [] else
    var before, row := Transitions(rows[..|rows| - 1], head), rows[|rows| - 1];
    if row.status == PLANNED && row.tag in head && head[row.tag] == PUBLISHED then before + [row.tag] else before
  }

  function TransitionList(baseText: Text, headText: Text): Result<seq<string>, Error> {
    var _ :- MappingStatuses(baseText);
    var head :- MappingStatuses(headText);
    Ok(Transitions(StrictRows(baseText), head))
  }

  function TransitionTag(baseText: Text, headText: Text): Result<string, Error> {
    var tags :- TransitionList(baseText, headText);
    if |tags| == 1 then Ok(tags[0]) else Err(WrongTransitions(|tags|))
  }

  function CandidateTransitionCount(baseText: Text, headText: Text): Result<nat, Error> {
    var tags :- TransitionList(baseText, headText);
    Ok(|tags|)
  }

  // ---------------------------------------------------------------- producing a transition

  function Flipped(cell: string): string {
    var n := SpaceRun(cell);
    if n + |PLANNED| <= |cell| then cell[..n] + (PUBLISHED + cell[n + |PLANNED|..]) else cell
  }

  predicate IsPlannedRow(line: string, tag: string) {
    StrictRow(line) == Some(Row(tag, PLANNED))
  }

  /** The line with its status cell rewritten. */
  function FlipLine(line: string, tag: string): string {
    if !IsPlannedRow(line, tag) then line else
    var cells := Split(line);
    var n := |cells|;
    Join(cells[..n - 2]) + ("|" + (Flipped(cells[n - 2]) + ("|" + "")))
  }

  function FlipText(text: Text, tag: string): (r: Text)
    ensures |r| == |text|
  {
    seq(|text|, i requires 0 <= i < |text| => FlipLine(text[i], tag))
  }

  function PlannedRows(text: Text, tag: string): nat {
    if text == [] then 0 else PlannedRows(text[..|text| - 1], tag) + if IsPlannedRow(text[|text| - 1], tag) then 1 else 0
  }

  function ReplacePlannedMapping(text: Text, tag: string): Result<Text, Error> {
    var count := PlannedRows(text, tag);
    if count != 1 then Err(WrongReplacements(count)) else Ok(FlipText(text, tag))
  }

  // ---------------------------------------------------------------- the flipped line

  /** A cell read as `planned` is that word between spaces. */
  lemma PlannedCell(cell: string) returns (left: string, right: string)
    requires StatusCell(cell) == Some(PLANNED)
    ensures cell == left + (PLANNED + right) && Flipped(cell) == left + (PUBLISHED + right)
    ensures forall i :: 0 <= i < |left| ==> IsSpace(left[i])
    ensures forall i :: 0 <= i < |right| ==> IsSpace(right[i])
  {
    var n := SpaceRun(cell);
    right := StripRightSplits(cell[n..]);
    left := cell[..n];
    assert cell[n..] == PLANNED + right;
    assert cell == left + cell[n..];
    assert cell[n..][|PLANNED|..] == right;
  }

  lemma StatusWords()
    ensures AllLower(PLANNED) && AllLower(PUBLISHED)
  {
  }

  /** Flipping exchanges just the word. */
  lemma FlippedStatus(cell: string)
    requires StatusCell(cell) == Some(PLANNED)
    ensures StatusCell(Flipped(cell)) == Some(PUBLISHED)
  {
    hide Flipped, AllLower, SpaceRun, StripRight;
    var left, right := PlannedCell(cell);
    StatusWords();
    SpaceRunOf(left, PUBLISHED + right);
    assert (left + (PUBLISHED + right))[|left|..] == PUBLISHED + right;
    StripRightIs(PUBLISHED + right, PUBLISHED, right);
  }

  lemma FlippedChars(cell: string, c: char)
    requires StatusCell(cell) == Some(PLANNED) && (c in cell || c in Flipped(cell))
    ensures IsSpace(c) || 'a' <= c <= 'z'
  {
    var left, right := PlannedCell(cell);
    hide StatusCell, Flipped;
    StatusWords();
    assert c in left || c in PLANNED || c in PUBLISHED || c in right;
  }

  lemma {:induction false} JoinAppend(cells: seq<string>, cell: string)
    requires cells != []
    ensures Join(cells + [cell]) == Join(cells) + ("|" + cell)
  {
    if |cells| == 1 {
      assert (cells + [cell])[1..] == [cell];
    } else {
      assert (cells + [cell])[1..] == cells[1..] + [cell];
      JoinAppend(cells[1..], cell);
      Associate("|", Join(cells[1..]), "|" + cell);
      Associate(cells[0], "|" + Join(cells[1..]), "|" + cell);
    }
  }

  /** The line around its last two cells. */
  lemma JoinAround(cells: seq<string>, cell: string)
    requires |cells| >= 3 && cells[|cells| - 1] == ""
    ensures Join(cells[|cells| - 2 := cell]) == Join(cells[..|cells| - 2]) + ("|" + (cell + ("|" + "")))
  {
    var n := |cells|;
    var head := cells[..n - 2];
    assert cells[n - 2 := cell] == (head + [cell]) + [""];
    JoinAppend(head, cell);
    JoinAppend(head + [cell], "");
    Associate("|", cell, "|" + "");
    Associate(Join(head), "|" + cell, "|" + "");
  }

  lemma FlippedCells(line: string, tag: string)
    requires IsPlannedRow(line, tag)
    ensures var cells := Split(line);
            var n := |cells|;
            && n >= 6 && cells[n - 1] == "" && StatusCell(cells[n - 2]) == Some(PLANNED)
            && line == Join(cells[..n - 2]) + ("|" + (cells[n - 2] + ("|" + "")))
            && Split(FlipLine(line, tag)) == cells[n - 2 := Flipped(cells[n - 2])]
  {
    hide TagCell, StatusCell, NameCell, CommitCell, FinalizableTag, Join, Flipped, Split;
    var cells := Split(line);
    var n := |cells|;
    assert n >= 6 && cells[n - 1] == "" && StatusCell(cells[n - 2]) == Some(PLANNED);
    JoinSplit(line);
    JoinAround(cells, cells[n - 2]);
    assert cells[n - 2 := cells[n - 2]] == cells;
    JoinAround(cells, Flipped(cells[n - 2]));
    FlippedStatus(cells[n - 2]);
    var after := cells[n - 2 := Flipped(cells[n - 2])];
    forall i | 0 <= i < n ensures NoBar(after[i]) {
      if i == n - 2 {
        forall k | 0 <= k < |after[i]| ensures after[i][k] != '|' {
          FlippedChars(cells[n - 2], after[i][k]);
        }
      }
    }
    SplitJoin(after);
  }

  lemma RestatedCells(cells: seq<string>, cell: string, status: string)
    requires |cells| >= 6 && StatusCell(cell) == Some(status)
    ensures var after := cells[|cells| - 2 := cell];
            && (LooseCells(cells).Some? ==> LooseCells(after) == Some(LooseCells(cells).value.(status := status)))
            && (StrictCells(cells).Some? ==> StrictCells(after) == Some(StrictCells(cells).value.(status := status)))
  {
    hide TagCell, StatusCell, NameCell, CommitCell, FinalizableTag, Join;
    var n := |cells|;
    assert cells[n - 2 := cell][2..n - 3] == cells[2..n - 3];
  }

  /** Flipping changes the status of that row and of no other. */
  lemma FlippedRow(line: string, tag: string)
    ensures StrictRow(FlipLine(line, tag)) ==
            if IsPlannedRow(line, tag) then Some(Row(tag, PUBLISHED)) else StrictRow(line)
    ensures LooseRow(FlipLine(line, tag)) ==
            if IsPlannedRow(line, tag) then Some(Row(tag, PUBLISHED)) else LooseRow(line)
    ensures IsPlannedRow(line, tag) ==> LooseRow(line) == Some(Row(tag, PLANNED))
  {
    if IsPlannedRow(line, tag) {
      hide TagCell, StatusCell, NameCell, CommitCell, FinalizableTag, Flipped, Split, Join, FlipLine;
      FlippedCells(line, tag);
      var cells := Split(line);
      var n := |cells|;
      FlippedStatus(cells[n - 2]);
      RestatedCells(cells, Flipped(cells[n - 2]), PUBLISHED);
    }
  }

  // ---------------------------------------------------------------- the flipped table

  function Restate(row: Row, tag: string): Row {
    if row == Row(tag, PLANNED) then Row(tag, PUBLISHED) else row
  }

  function RestateAll(rows: seq<Row>, tag: string): (r: seq<Row>)
    ensures |r| == |rows|
  {
    seq(|rows|, i requires 0 <= i < |rows| => Restate(rows[i], tag))
  }

  lemma StrictRowsSnoc(text: Text, line: string)
    ensures StrictRows(text + [line]) == StrictRows(text) + if StrictRow(line).Some? then [StrictRow(line).value] else []
  {
    hide StrictRow;
    assert (text + [line])[..|text|] == text;
  }

  lemma RestateAllSnoc(rows: seq<Row>, row: Row, tag: string)
    ensures RestateAll(rows + [row], tag) == RestateAll(rows, tag) + [Restate(row, tag)]
  {
    hide Restate;
  }

  lemma {:induction false} FlippedRows(text: Text, tag: string)
    ensures StrictRows(FlipText(text, tag)) == RestateAll(StrictRows(text), tag)
    ensures PlannedRows(text, tag) > 0 ==> Row(tag, PLANNED) in StrictRows(text)
  {
    if text != [] {
      hide StrictRow, FlipLine, FlipText, RestateAll, StrictRows;
      var init, line := text[..|text| - 1], text[|text| - 1];
      assert text == init + [line];
      FlippedRows(init, tag);
      FlippedRow(line, tag);
      FlipTextSnoc(init, line, tag);
      StrictRowsSnoc(init, line);
      StrictRowsSnoc(FlipText(init, tag), FlipLine(line, tag));
      if StrictRow(line).Some? {
        RestateAllSnoc(StrictRows(init), StrictRow(line).value, tag);
      }
    } else {
      NothingFlipped(tag);
    }
  }

  lemma NothingFlipped(tag: string)
    ensures StrictRows(FlipText([], tag)) == [] == RestateAll(StrictRows([]), tag)
  {
  }

  lemma {:induction false} RowMapHolds(rows: seq<Row>)
    requires NoRepeats(rows)
    ensures forall row <- rows :: row.tag in RowMap(rows) && RowMap(rows)[row.tag] == row.status
  {
    if rows != [] {
      var n := |rows| - 1;
      RowMapHolds(rows[..n]);
      forall row <- rows ensures row.tag in RowMap(rows) && RowMap(rows)[row.tag] == row.status {
        var i :| 0 <= i < |rows| && rows[i] == row;
        if i < n {
          assert rows[..n][i] == row && rows[i].tag != rows[n].tag;
        }
      }
    }
  }

  lemma RestatedTags(rows: seq<Row>, tag: string)
    requires NoRepeats(rows)
    ensures NoRepeats(RestateAll(rows, tag))
  {
    var after := RestateAll(rows, tag);
    forall i, j | 0 <= i < j < |after| ensures after[i].tag != after[j].tag {
      assert rows[i].tag != rows[j].tag;
    }
  }

  lemma InPrefix(rows: seq<Row>, row: Row)
    requires rows != [] && NoRepeats(rows) && row in rows[..|rows| - 1]
    ensures row.tag != rows[|rows| - 1].tag
  {
    var k :| 0 <= k < |rows| - 1 && rows[k] == row;
  }

  /** Under distinct tags, restating one planned row updates one key of the dictionary. */
  lemma RestateSnoc(rows: seq<Row>, row: Row, tag: string)
    ensures RowMap(rows + [row]) == RowMap(rows)[row.tag := row.status]
    ensures RestateAll(rows + [row], tag) == RestateAll(rows, tag) + [Restate(row, tag)]
    ensures RowMap(RestateAll(rows + [row], tag)) == RowMap(RestateAll(rows, tag))[row.tag := Restate(row, tag).status]
  {
    assert (rows + [row])[..|rows|] == rows;
    assert (RestateAll(rows, tag) + [Restate(row, tag)])[..|rows|] == RestateAll(rows, tag);
  }

  lemma NoRepeatsSnoc(rows: seq<Row>, row: Row)
    requires NoRepeats(rows + [row])
    ensures NoRepeats(rows) && forall r <- rows :: r.tag != row.tag
  {
    var all := rows + [row];
    forall i, j | 0 <= i < j < |rows| ensures rows[i].tag != rows[j].tag {
      assert all[i].tag != all[j].tag;
    }
    forall i | 0 <= i < |rows| ensures rows[i].tag != row.tag {
      assert all[i].tag != all[|rows|].tag;
    }
  }

  lemma {:induction false} RestatedMap(rows: seq<Row>, tag: string)
    requires NoRepeats(rows)
    ensures RowMap(RestateAll(rows, tag)) ==
            if Row(tag, PLANNED) in rows then RowMap(rows)[tag := PUBLISHED] else RowMap(rows)
  {
    if rows != [] {
      var init, row := rows[..|rows| - 1], rows[|rows| - 1];
      assert rows == init + [row];
      NoRepeatsSnoc(init, row);
      RestatedMap(init, tag);
      RestateSnoc(init, row, tag);
      hide NoRepeats, RowMap, RestateAll;
      RestatedEntry(RowMap(init), row, tag);
    }
  }

  lemma RestatedEntry(before: map<string, string>, row: Row, tag: string)
    ensures row.tag != tag ==> before[tag := PUBLISHED][row.tag := row.status] == before[row.tag := row.status][tag := PUBLISHED]
    ensures before[tag := PUBLISHED] == before[tag := PLANNED][tag := PUBLISHED]
  {
  }

  lemma {:induction false} OnlyTransition(rows: seq<Row>, all: seq<Row>, tag: string)
    requires rows <= all && NoRepeats(all) && Row(tag, PLANNED) in all
    ensures Transitions(rows, RowMap(all)[tag := PUBLISHED]) == if Row(tag, PLANNED) in rows then [tag] else []
  {
    hide RowMap;
    if rows != [] {
      var n := |rows| - 1;
      var row := rows[n];
      OnlyTransition(rows[..n], all, tag);
      RowMapHolds(all);
      assert all[n] == row;
      assert rows == rows[..n] + [row];
      if row in rows[..n] {
        InPrefix(rows, row);
      }
    }
  }

  /** A successful replacement publishes exactly the named row: every other row keeps its status,
      and comparing the two texts detects exactly this transition. */
  lemma ReplacementIsTheTransition(text: Text, tag: string)
    requires MappingStatuses(text).Ok? && ReplacePlannedMapping(text, tag).Ok?
    ensures var before := MappingStatuses(text).value;
            var after := ReplacePlannedMapping(text, tag).value;
            && tag in before && before[tag] == PLANNED
            && MappingStatuses(after) == Ok(before[tag := PUBLISHED])
            && TransitionTag(text, after) == Ok(tag)
            && CandidateTransitionCount(text, after) == Ok(1)
  {
    var rows := StrictRows(text);
    FlippedRows(text, tag);
    RestatedTags(rows, tag);
    RestatedMap(rows, tag);
    RowMapHolds(rows);
    OnlyTransition(rows, rows, tag);
  }

  // ---------------------------------------------------------------- the loose reading of a flip

  /** The documentation tools see either the same dictionary or the one row published; the tags and
      their order never change. */
  lemma StatusesSnoc(text: Text, line: string)
    ensures var row := LooseRow(line);
            && Statuses(text + [line]) == (if row.Some? then Statuses(text)[row.value.tag := row.value.status] else Statuses(text))
            && StatusTags(text + [line]) ==
               if row.Some? && row.value.tag !in StatusTags(text) then StatusTags(text) + [row.value.tag] else StatusTags(text)
  {
    assert (text + [line])[..|text|] == text;
  }

  lemma FlipTextSnoc(text: Text, line: string, tag: string)
    ensures FlipText(text + [line], tag) == FlipText(text, tag) + [FlipLine(line, tag)]
  {
  }

  /** The first table is the second, but for the one row that went from planned to published. */
  predicate OneFlip(flipped: map<string, string>, statuses: map<string, string>, tag: string) {
    || flipped == statuses
    || (tag in statuses && statuses[tag] == PLANNED && flipped == statuses[tag := PUBLISHED])
  }

  lemma OneMoreStatus(flipped: map<string, string>, statuses: map<string, string>, tag: string, x: string, status: string)
    requires OneFlip(flipped, statuses, tag)
    ensures OneFlip(flipped[x := status], statuses[x := status], tag)
    ensures OneFlip(flipped[tag := PUBLISHED], statuses[tag := PLANNED], tag)
  {
    assert flipped[tag := PUBLISHED] == statuses[tag := PLANNED][tag := PUBLISHED];
    if flipped != statuses {
      if x == tag {
        assert flipped[x := status] == statuses[x := status];
      } else {
        assert flipped[x := status] == statuses[x := status][tag := PUBLISHED];
      }
    }
  }

  lemma {:induction false} FlippedStatuses(text: Text, tag: string)
    ensures StatusTags(FlipText(text, tag)) == StatusTags(text)
    ensures OneFlip(Statuses(FlipText(text, tag)), Statuses(text), tag)
  {
    if text != [] {
      var init, line := text[..|text| - 1], text[|text| - 1];
      assert text == init + [line];
      FlippedStatuses(init, tag);
      FlippedStatusesSnoc(init, line, tag);
    }
  }

  lemma FlippedStatusesSnoc(init: Text, line: string, tag: string)
    requires StatusTags(FlipText(init, tag)) == StatusTags(init)
    requires OneFlip(Statuses(FlipText(init, tag)), Statuses(init), tag)
    ensures StatusTags(FlipText(init + [line], tag)) == StatusTags(init + [line])
    ensures OneFlip(Statuses(FlipText(init + [line], tag)), Statuses(init + [line]), tag)
  {
    hide LooseRow, FlipLine, StrictRow, IsPlannedRow, FlipText, Statuses, StatusTags, OneFlip;
    FlipTextSnoc(init, line, tag);
    FlippedRow(line, tag);
    StatusesSnoc(init, line);
    StatusesSnoc(FlipText(init, tag), FlipLine(line, tag));
    if LooseRow(line).Some? {
      OneMoreStatus(Statuses(FlipText(init, tag)), Statuses(init), tag, LooseRow(line).value.tag, LooseRow(line).value.status);
    }
  }

  // ---------------------------------------------------------------- how many rows, how many transitions

  /** The lines that show the tag as planned. */
  function PlannedLines(text: Text, tag: string): set<nat> {
    set i | 0 <= i < |text| && StrictRow(text[i]) == Some(Row(tag, "planned"))
  }

  lemma {:induction false} PlannedRowsAreCounted(text: Text, tag: string)
    ensures PlannedRows(text, tag) == |PlannedLines(text, tag)|
  {
    hide StrictRow;
    if text == [] {
      assert PlannedLines(text, tag) == {};
    } else {
      var n := |text| - 1;
      PlannedRowsAreCounted(text[..n], tag);
      assert PlannedLines(text, tag) == PlannedLines(text[..n], tag) + if IsPlannedRow(text[n], tag) then {n} else {};
      assert n !in PlannedLines(text[..n], tag);
    }
  }

  /** The replacement succeeds if and only if exactly one line shows the tag as planned; then that line
      alone is flipped, and otherwise the error tells how many there are. */
  lemma ReplacementIff(text: Text, tag: string)
    ensures var lines := PlannedLines(text, tag);
            && (|lines| != 1 ==> ReplacePlannedMapping(text, tag) == Err(WrongReplacements(|lines|)))
            && (|lines| == 1 ==> exists i :: lines == {i} && ReplacePlannedMapping(text, tag) == Ok(text[i := FlipLine(text[i], tag)]))
  {
    PlannedRowsAreCounted(text, tag);
    hide StrictRow, PlannedRows;
    var lines := PlannedLines(text, tag);
    if |lines| == 1 {
      var i :| i in lines;
      assert |lines - {i}| == 0;
      assert lines == {i};
      forall j | 0 <= j < |text| ensures FlipText(text, tag)[j] == text[i := FlipLine(text[i], tag)][j] {
        if j != i {
          assert j !in lines;
        }
      }
      assert FlipText(text, tag) == text[i := FlipLine(text[i], tag)];
    }
  }

  /** The tags that one table shows as planned and the other as published. */
  ghost predicate IsTransition(base: map<string, string>, head: map<string, string>, tag: string) {
    tag in base && base[tag] == "planned" && tag in head && head[tag] == "published"
  }

  lemma TransitionsSnoc(rows: seq<Row>, row: Row, head: map<string, string>)
    ensures RowMap(rows + [row]) == RowMap(rows)[row.tag := row.status]
    ensures Transitions(rows + [row], head) == Transitions(rows, head) + TransitionOf(row, head)
  {
    assert (rows + [row])[..|rows|] == rows;
  }

  lemma {:induction false} TransitionsAreTags(rows: seq<Row>, head: map<string, string>)
    requires NoRepeats(rows)
    ensures forall tag :: tag in Transitions(rows, head) <==> IsTransition(RowMap(rows), head, tag)
    ensures forall i, j :: 0 <= i < j < |Transitions(rows, head)| ==> Transitions(rows, head)[i] != Transitions(rows, head)[j]
  {
    if rows != [] {
      var init, row := rows[..|rows| - 1], rows[|rows| - 1];
      assert rows == init + [row];
      NoRepeatsSnoc(init, row);
      TransitionsAreTags(init, head);
      RowMapKeys(init);
      TransitionsSnoc(init, row, head);
      hide NoRepeats, RowMap, Transitions;
      assert row.tag !in RowMap(init);
      assert row.tag !in Transitions(init, head) by { assert !IsTransition(RowMap(init), head, row.tag); }
    }
  }

  function TransitionOf(row: Row, head: map<string, string>): seq<string> {
    if row.status == PLANNED && row.tag in head && head[row.tag] == PUBLISHED then [row.tag] else []
  }

  /** A tag is named if and only if it is the one transition between the two tables; otherwise the error
      tells how many there are, when both can be read. */
  lemma TransitionTagIff(baseText: Text, headText: Text, tag: string)
    requires MappingStatuses(baseText).Ok? && MappingStatuses(headText).Ok?
    ensures var base, head := MappingStatuses(baseText).value, MappingStatuses(headText).value;
            && (TransitionTag(baseText, headText) == Ok(tag) <==> forall t :: IsTransition(base, head, t) <==> t == tag)
            && exists tags: set<string> ::
                 && (forall t :: t in tags <==> IsTransition(base, head, t))
                 && CandidateTransitionCount(baseText, headText) == Ok(|tags|)
                 && (|tags| != 1 ==> TransitionTag(baseText, headText) == Err(WrongTransitions(|tags|)))
  {
    var rows, head := StrictRows(baseText), MappingStatuses(headText).value;
    TransitionsAreTags(rows, head);
    var found := Transitions(rows, head);
    hide StrictRows, Transitions, NoRepeats, RowMap, IsTransition;
    AsManyAsDistinct(found);
    OnlyOne(found, tag);
    var tags := Found(found);
  }

  function Found(found: seq<string>): (tags: set<string>)
    ensures forall t :: t in tags <==> t in found
  {
    set t | t in found
  }

  lemma OnlyOne(found: seq<string>, tag: string)
    requires forall i, j :: 0 <= i < j < |found| ==> found[i] != found[j]
    ensures found == [tag] <==> forall t :: t in found <==> t == tag
  {
    if forall t :: t in found <==> t == tag {
      assert tag in found;
      if |found| > 1 {
        assert found[0] in found && found[1] in found;
      }
    }
  }

  lemma {:induction false} AsManyAsDistinct(found: seq<string>)
    requires forall i, j :: 0 <= i < j < |found| ==> found[i] != found[j]
    ensures |Found(found)| == |found|
  {
    if found != [] {
      var init, last := found[..|found| - 1], found[|found| - 1];
      AsManyAsDistinct(init);
      assert found == init + [last];
      assert Found(found) == Found(init) + {last};
    }
  }
}
