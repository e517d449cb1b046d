/**
 Passes over the tokens of one line.  Every pass writes one version into the tokens it marks, and
 marks depend on the line's shape only; so passes neither create nor destroy each other's marks.
 */
module LineTokens {
  import opened Strings
  import opened Wrappers
  import opened Versions
  import opened VersionTokens
  import opened Patterns

  datatype Pass = Pass(pattern: Pattern, parts: Parts)

  predicate ValidPass(a: Pass) {
    WellBuilt(a.pattern) && WellFormed(a.parts)
  }

  predicate ValidPasses(passes: seq<Pass>) {
    forall k :: 0 <= k < |passes| ==> ValidPass(passes[k])
  }

  function FromEnd(s: string, j: nat): char
    requires 1 <= j <= |s|
  {
    s[|s| - j]
  }

  /** No position can be the version of both expressions: what must stand before it differs. */
  predicate Exclusive(p: Pattern, q: Pattern) {
    && |p.literal| >= 3 && |q.literal| >= 3
    && if p.gap then !q.gap && !IsSpace(FromEnd(q.literal, 1))
    else if q.gap then !IsSpace(FromEnd(p.literal, 1))
    else FromEnd(p.literal, 1) != FromEnd(q.literal, 1) || FromEnd(p.literal, 2) != FromEnd(q.literal, 2)
         || FromEnd(p.literal, 3) != FromEnd(q.literal, 3)
  }

  /** Two passes never disagree on what to write at one position. */
  predicate Compatible(a: Pass, b: Pass) {
    a.parts == b.parts || a.pattern.kind != b.pattern.kind || Exclusive(a.pattern, b.pattern)
  }

  predicate AllCompatible(passes: seq<Pass>) {
    forall i, j :: 0 <= i < |passes| && 0 <= j < |passes| ==> Compatible(passes[i], passes[j])
  }

  function LineMarks(p: Pattern, ts: seq<Token>): (marks: seq<bool>)
    ensures |marks| == |ts|
  {
    Marks(p, true, ts)
  }

  function RunPass(a: Pass, ts: seq<Token>): (r: seq<Token>)
    ensures |r| == |ts|
  {
    Apply(LineMarks(a.pattern, ts), a.parts, ts)
  }

  function RunPasses(passes: seq<Pass>, ts: seq<Token>): (r: seq<Token>)
    ensures |r| == |ts|
  {
    if passes == [] then ts
    else RunPass(passes[|passes| - 1], RunPasses(passes[..|passes| - 1], ts))
  }

  /** No pass would change the line. */
  predicate Settled(passes: seq<Pass>, ts: seq<Token>) {
    forall k :: 0 <= k < |passes| ==> RunPass(passes[k], ts) == ts
  }

  // ---------------------------------------------------------------- marks and shapes

  lemma {:induction false} SpaceRunShape(a: seq<Token>, b: seq<Token>)
    requires SameShape(a, b)
    ensures TokenSpaceRun(a) == TokenSpaceRun(b)
  {
    if a != [] {
      assert SameShapeToken(a[0], b[0]);
      DropShape(a, b, 1);
      SpaceRunShape(a[1..], b[1..]);
    }
  }

  lemma DropShape(a: seq<Token>, b: seq<Token>, n: nat)
    requires SameShape(a, b) && n <= |a|
    ensures SameShape(a[n..], b[n..])
  {
    forall i | 0 <= i < |a| - n ensures SameShapeToken(a[n..][i], b[n..][i]) {
      assert SameShapeToken(a[n + i], b[n + i]);
    }
  }

  lemma PlainsShape(x: string, a: seq<Token>, b: seq<Token>)
    requires SameShape(a, b) && Plains(x) <= a
    ensures Plains(x) <= b
  {
    forall i | 0 <= i < |x| ensures b[i] == Plains(x)[i] {
      assert a[i] == Plains(x)[i] && SameShapeToken(a[i], b[i]);
    }
  }

  lemma ShapeSymmetric(a: seq<Token>, b: seq<Token>)
    requires SameShape(a, b)
    ensures SameShape(b, a)
  {
    forall i | 0 <= i < |a| ensures SameShapeToken(b[i], a[i]) {
      assert SameShapeToken(a[i], b[i]);
    }
  }

  lemma TailShape(tail: Tail, a: seq<Token>, b: seq<Token>)
    requires SameShape(a, b)
    ensures TokenTail(tail, a) == TokenTail(tail, b)
  {
    ShapeSymmetric(a, b);
    SpaceRunShape(a, b);
    match tail {
      case Literal(x) =>
        if Plains(x) <= a { PlainsShape(x, a, b); }
        if Plains(x) <= b { PlainsShape(x, b, a); }
      case BlankToEnd =>
      case BackslashToEnd =>
        var n := TokenSpaceRun(a);
        if n < |a| {
          assert SameShapeToken(a[n], b[n]);
          assert a[n..] == [Plain('\\')] <==> |a| == n + 1 && a[n] == Plain('\\');
          assert b[n..] == [Plain('\\')] <==> |b| == n + 1 && b[n] == Plain('\\');
        }
    }
  }

  lemma MatchShape(p: Pattern, start: bool, a: seq<Token>, b: seq<Token>)
    requires SameShape(a, b)
    ensures TokenMatchAt(p, start, a) == TokenMatchAt(p, start, b)
  {
    hide TokenTail, TokenSpaceRun;
    var n := |p.literal|;
    ShapeSymmetric(a, b);
    if Plains(p.literal) <= a { PlainsShape(p.literal, a, b); }
    if Plains(p.literal) <= b { PlainsShape(p.literal, b, a); }
    if Plains(p.literal) <= a {
      DropShape(a, b, n);
      SpaceRunShape(a[n..], b[n..]);
    }
    assert TokenFront(p, start, a) == TokenFront(p, start, b);
    if TokenFront(p, start, a).Some? {
      hide TokenFront;
      var at := TokenFront(p, start, a).value;
      if at < |a| {
        assert SameShapeToken(a[at], b[at]);
        DropShape(a, b, at + 1);
        TailShape(p.tail, a[at + 1..], b[at + 1..]);
      }
    }
  }

  /** Which versions a pass captures does not depend on the versions. */
  lemma {:induction false} MarksShape(p: Pattern, start: bool, a: seq<Token>, b: seq<Token>)
    requires SameShape(a, b)
    ensures Marks(p, start, a) == Marks(p, start, b)
    decreases |a|
  {
    if a == [] {
      return;
    }
    hide TokenMatchAt, Marks, SameShape;
    MatchShape(p, start, a, b);
    match TokenMatchAt(p, start, a) {
      case Some(m) =>
        var n := m.before + 1 + m.after;
        DropShape(a, b, n);
        MarksShape(p, false, a[n..], b[n..]);
        MarksHead(p, start, a, m);
        MarksHead(p, start, b, m);
      case None =>
        DropShape(a, b, 1);
        MarksShape(p, false, a[1..], b[1..]);
        MarksSkip(p, start, a);
        MarksSkip(p, start, b);
    }
  }

  // ---------------------------------------------------------------- what stands before a mark

  /** The literal, or white space, ends right before position `i`. */
  predicate Precedes(p: Pattern, ts: seq<Token>, i: nat)
    requires i <= |ts|
  {
    if p.gap then i > 0 && ts[i - 1].Plain? && IsSpace(ts[i - 1].c)
    else i >= |p.literal| && ts[i - |p.literal|..i] == Plains(p.literal)
  }

  lemma PrecedesShift(p: Pattern, ts: seq<Token>, n: nat, i: nat)
    requires n + i <= |ts| && Precedes(p, ts[n..], i)
    ensures Precedes(p, ts, n + i)
  {
    if !p.gap {
      assert ts[n..][i - |p.literal|..i] == ts[n + i - |p.literal|..n + i];
    }
  }

  lemma MarksStep(p: Pattern, start: bool, ts: seq<Token>, i: nat)
    requires i < |ts|
    ensures var n := Stride(p, start, ts);
            if i < n then Marks(p, start, ts)[i] ==> TokenMatchAt(p, start, ts).Some? && i == TokenMatchAt(p, start, ts).value.before
            else Marks(p, start, ts)[i] == Marks(p, false, ts[n..])[i - n]
  {
    hide TokenMatchAt, Marks, Falses;
    match TokenMatchAt(p, start, ts) {
      case Some(m) =>
        MarksHead(p, start, ts, m);
        SplicedMark(m.before, m.after, Marks(p, false, ts[m.before + 1 + m.after..]), i);
      case None =>
        MarksSkip(p, start, ts);
    }
  }

  lemma SplicedMark(before: nat, after: nat, rest: seq<bool>, i: nat)
    requires i < before + 1 + after + |rest|
    ensures (Falses(before) + [true] + Falses(after) + rest)[i] ==
            if i < before + 1 + after then i == before else rest[i - before - 1 - after]
  {
  }

  lemma {:induction false} MarkedIsPreceded(p: Pattern, start: bool, ts: seq<Token>, i: nat)
    requires i < |ts| && Marks(p, start, ts)[i]
    ensures Precedes(p, ts, i)
    decreases |ts|
  {
    hide Precedes, TokenMatchAt, Marks, Stride;
    MarksStep(p, start, ts, i);
    var n := Stride(p, start, ts);
    if i < n {
      MatchPrecedes(p, start, ts, TokenMatchAt(p, start, ts).value);
    } else {
      MarkedIsPreceded(p, false, ts[n..], i - n);
      PrecedesShift(p, ts, n, i - n);
    }
  }

  lemma MatchPrecedes(p: Pattern, start: bool, ts: seq<Token>, m: TokenMatch)
    requires TokenMatchAt(p, start, ts) == Some(m)
    ensures Precedes(p, ts, m.before)
  {
    var n, at := |p.literal|, m.before;
    if p.gap {
      assert ts[n..][at - n - 1] == ts[at - 1];
    } else {
      assert ts[at - n..at] == Plains(p.literal);
    }
  }

  lemma PrecedingChar(p: Pattern, ts: seq<Token>, i: nat, j: nat)
    requires !p.gap && i <= |ts| && Precedes(p, ts, i) && 1 <= j <= |p.literal|
    ensures i >= j && ts[i - j] == Plain(FromEnd(p.literal, j))
  {
    var n := |p.literal|;
    assert Plains(p.literal)[n - j] == ts[i - n..i][n - j];
  }

  lemma LastThree(p: Pattern, ts: seq<Token>, i: nat)
    requires !p.gap && |p.literal| >= 3 && i <= |ts| && Precedes(p, ts, i)
    ensures i >= 3 && ts[i - 1] == Plain(FromEnd(p.literal, 1))
    ensures ts[i - 2] == Plain(FromEnd(p.literal, 2)) && ts[i - 3] == Plain(FromEnd(p.literal, 3))
  {
    PrecedingChar(p, ts, i, 1);
    PrecedingChar(p, ts, i, 2);
    PrecedingChar(p, ts, i, 3);
  }

  lemma NotBothPrecede(p: Pattern, q: Pattern, ts: seq<Token>, i: nat)
    requires Exclusive(p, q) && i <= |ts|
    ensures !(Precedes(p, ts, i) && Precedes(q, ts, i))
  {
    hide FromEnd, IsSpace, Plains;
    if Precedes(p, ts, i) && Precedes(q, ts, i) {
      if !p.gap { LastThree(p, ts, i); }
      if !q.gap { LastThree(q, ts, i); }
    }
  }

  lemma ExclusiveMarks(p: Pattern, q: Pattern, ts: seq<Token>, i: nat)
    requires WellBuilt(p) && WellBuilt(q) && Exclusive(p, q)
    requires i < |ts| && LineMarks(p, ts)[i]
    ensures !LineMarks(q, ts)[i]
  {
    hide Marks, NoStart, Precedes, Exclusive, WellBuilt;
    MarkedIsPreceded(p, true, ts, i);
    NotBothPrecede(p, q, ts, i);
    if LineMarks(q, ts)[i] {
      MarkedIsPreceded(q, true, ts, i);
    }
  }

  // ---------------------------------------------------------------- runs of passes

  lemma {:induction false} GoodParts(boundary: bool, ts: seq<Token>)
    requires Good(boundary, ts)
    ensures forall i :: 0 <= i < |ts| && ts[i].Version? ==> WellFormed(ts[i].parts)
    decreases |ts|
  {
    if ts != [] {
      GoodSplit(boundary, ts, 1);
      GoodParts(BoundaryAfter(boundary, ts[..1]), ts[1..]);
      assert ts == [ts[0]] + ts[1..];
    }
  }

  lemma RunPassShape(a: Pass, ts: seq<Token>)
    requires ValidPass(a) && Good(true, ts)
    ensures SameShape(ts, RunPass(a, ts)) && Good(true, RunPass(a, ts))
  {
    hide Good, LineMarks, WellFormed;
    GoodParts(true, ts);
    assert SameShape(ts, RunPass(a, ts));
    SameShapeGood(true, ts, RunPass(a, ts));
  }

  lemma ShapeTransitive(a: seq<Token>, b: seq<Token>, c: seq<Token>)
    requires SameShape(a, b) && SameShape(b, c)
    ensures SameShape(a, c)
  {
    forall i | 0 <= i < |a| ensures SameShapeToken(a[i], c[i]) {
      assert SameShapeToken(a[i], b[i]) && SameShapeToken(b[i], c[i]);
    }
  }

  lemma {:induction false} RunPassesShape(passes: seq<Pass>, ts: seq<Token>)
    requires ValidPasses(passes) && Good(true, ts)
    ensures SameShape(ts, RunPasses(passes, ts)) && Good(true, RunPasses(passes, ts))
  {
    hide Good, RunPass, SameShape;
    if passes != [] {
      var n := |passes| - 1;
      RunPassesShape(passes[..n], ts);
      var t := RunPasses(passes[..n], ts);
      RunPassShape(passes[n], t);
      ShapeTransitive(ts, t, RunPass(passes[n], t));
    } else {
      SameShapeReflexive(ts);
    }
  }

  lemma SameShapeReflexive(ts: seq<Token>)
    ensures SameShape(ts, ts)
  {
  }

  /** A pass leaves `t` alone exactly when the tokens it marks carry its version already. */
  predicate Written(a: Pass, marks: seq<bool>, t: seq<Token>) {
    |marks| == |t| && forall i :: 0 <= i < |t| && marks[i] && t[i].Version? ==> t[i].parts == a.parts
  }

  lemma SettledIffWritten(a: Pass, t: seq<Token>)
    ensures RunPass(a, t) == t <==> Written(a, LineMarks(a.pattern, t), t)
  {
    var r, marks := RunPass(a, t), LineMarks(a.pattern, t);
    if r == t {
      forall i | 0 <= i < |t| && marks[i] && t[i].Version? ensures t[i].parts == a.parts {
        assert r[i] == t[i];
      }
    }
    if Written(a, marks, t) {
      forall i | 0 <= i < |t| ensures r[i] == t[i] {
      }
    }
  }

  /** A compatible pass does not undo what another has written. */
  lemma WrittenSurvives(a: Pass, b: Pass, t: seq<Token>)
    requires ValidPass(a) && ValidPass(b) && Good(true, t)
    requires Compatible(a, b) && RunPass(a, t) == t
    ensures RunPass(a, RunPass(b, t)) == RunPass(b, t)
  {
    hide Good, WellBuilt, Marks;
    var t' := RunPass(b, t);
    RunPassShape(b, t);
    MarksShape(a.pattern, true, t, t');
    SettledIffWritten(a, t);
    SettledIffWritten(a, t');
    var ma, mb := LineMarks(a.pattern, t), LineMarks(b.pattern, t);
    forall i | 0 <= i < |t| && ma[i] && t'[i].Version? ensures t'[i].parts == a.parts {
      if mb[i] && a.parts != b.parts {
        assert t[i].kind == a.pattern.kind == b.pattern.kind;
        ExclusiveMarks(a.pattern, b.pattern, t, i);
      }
    }
  }

  lemma WritesOnce(a: Pass, t: seq<Token>)
    requires ValidPass(a) && Good(true, t)
    ensures RunPass(a, RunPass(a, t)) == RunPass(a, t)
  {
    hide Good, WellBuilt, Marks;
    RunPassShape(a, t);
    MarksShape(a.pattern, true, t, RunPass(a, t));
    SettledIffWritten(a, RunPass(a, t));
  }

  /** A run of compatible passes settles the line: running any of them again changes nothing. */
  lemma {:induction false} RunSettles(passes: seq<Pass>, ts: seq<Token>)
    requires ValidPasses(passes) && AllCompatible(passes) && Good(true, ts)
    ensures Settled(passes, RunPasses(passes, ts))
  {
    hide Good, RunPass, Compatible, SameShape, ValidPass;
    if passes != [] {
      var n := |passes| - 1;
      var t := RunPasses(passes[..n], ts);
      forall i, j | 0 <= i < n && 0 <= j < n ensures Compatible(passes[..n][i], passes[..n][j]) {
        assert Compatible(passes[i], passes[j]);
      }
      RunSettles(passes[..n], ts);
      RunPassesShape(passes[..n], ts);
      forall k | 0 <= k < |passes| ensures RunPass(passes[k], RunPass(passes[n], t)) == RunPass(passes[n], t) {
        if k < n {
          assert passes[..n][k] == passes[k] && Compatible(passes[k], passes[n]);
          WrittenSurvives(passes[k], passes[n], t);
        } else {
          WritesOnce(passes[n], t);
        }
      }
    }
  }

  lemma {:induction false} SettledStays(passes: seq<Pass>, ts: seq<Token>)
    requires Settled(passes, ts)
    ensures RunPasses(passes, ts) == ts
  {
    hide RunPass;
    if passes != [] {
      var n := |passes| - 1;
      forall k | 0 <= k < n ensures RunPass(passes[..n][k], ts) == ts {
        assert passes[..n][k] == passes[k];
      }
      SettledStays(passes[..n], ts);
    }
  }

  /** On a settled line, changing the version of one pass changes exactly what that pass marks. */
  lemma {:induction false} ChangeOnePass(passes: seq<Pass>, k: nat, a: Pass, ts: seq<Token>)
    requires ValidPasses(passes) && ValidPass(a) && Good(true, ts)
    requires k < |passes| && Settled(passes, ts)
    requires forall i :: 0 <= i < |passes| && i != k ==> Compatible(passes[i], a)
    ensures RunPasses(passes[k := a], ts) == RunPass(a, ts)
  {
    hide Good, RunPass, Compatible, SameShape, ValidPass;
    var n := |passes| - 1;
    var changed := passes[k := a];
    if k == n {
      assert changed[..n] == passes[..n];
      forall i | 0 <= i < n ensures RunPass(passes[..n][i], ts) == ts {
        assert passes[..n][i] == passes[i];
      }
      SettledStays(passes[..n], ts);
    } else {
      assert changed[..n] == passes[..n][k := a];
      forall i | 0 <= i < n ensures passes[..n][i] == passes[i] {
      }
      assert Settled(passes[..n], ts);
      ChangeOnePass(passes[..n], k, a, ts);
      assert changed[n] == passes[n] && RunPass(passes[n], ts) == ts;
      WrittenSurvives(passes[n], a, ts);
    }
  }
}
