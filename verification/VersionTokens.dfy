/**
 A line of a document as plain characters and whole version texts.  A version is recognised only
 where the preceding character could not belong to one, so that replacing a version by another of
 the same kind never changes how the rest of the line is read.
 */
module VersionTokens {
  import opened Strings
  import opened Wrappers
  import opened Versions

  datatype Token = Plain(c: char) | Version(kind: Kind, parts: Parts)

  predicate IsVersionChar(c: char) {
    IsDigit(c) || c == 'v' || c == '.' || c == '+' || c == '-'
    || c == 'c' || c == 'u' || c == 's' || c == 't' || c == 'o' || c == 'm'
  }

  predicate AllVersionChars(s: string) {
    forall i :: 0 <= i < |s| ==> IsVersionChar(s[i])
  }

  function ParseAny(s: string): Option<(Kind, Parts, string)> {
    match Parse(GitTag, s) case Some((p, rest)) => Some((GitTag, p, rest)) case None =>
    match Parse(Application, s) case Some((p, rest)) => Some((Application, p, rest)) case None =>
    match Parse(OciTag, s) case Some((p, rest)) => Some((OciTag, p, rest)) case None =>
    None
  }

  function RenderToken(t: Token): string {
    match t
    case Plain(c) => [c]
    case Version(kind, p) => Render(kind, p)
  }

  function RenderTokens(ts: seq<Token>): string {
    if ts == [] then "" else RenderToken(ts[0]) + RenderTokens(ts[1..])
  }

  function Tokenize(boundary: bool, s: string): seq<Token>
    decreases |s|
  {
    if s == "" then []
    else if boundary && ParseAny(s).Some? then
      ParseAnyRenders(s);
      var (kind, p, rest) := ParseAny(s).value;
      [Version(kind, p)] + Tokenize(false, rest)
    else
      [Plain(s[0])] + Tokenize(!IsVersionChar(s[0]), s[1..])
  }

  /** `ts` is how its own text is tokenized. */
  ghost predicate Good(boundary: bool, ts: seq<Token>)
    decreases |ts|
  {
    ts == [] ||
    match ts[0]
    case Version(_, p) => boundary && WellFormed(p) && Good(false, ts[1..])
    case Plain(c) =>
      && !(boundary && ParseAny(RenderTokens(ts)).Some?)
      && Good(!IsVersionChar(c), ts[1..])
  }

  function BoundaryAfter(boundary: bool, ts: seq<Token>): bool {
    if ts == [] then boundary
    else match ts[|ts| - 1] case Plain(c) => !IsVersionChar(c) case Version(_, _) => false
  }

  /** The same line except for the digits of its versions. */
  predicate SameShape(a: seq<Token>, b: seq<Token>) {
    && |a| == |b|
    && forall i :: 0 <= i < |a| ==> SameShapeToken(a[i], b[i])
  }

  predicate SameShapeToken(a: Token, b: Token) {
    a == b || (a.Version? && b.Version? && a.kind == b.kind && WellFormed(a.parts) && WellFormed(b.parts))
  }

  // ---------------------------------------------------------------- characters of a version

  lemma BodyChars(separator: char, p: Parts)
    requires WellFormed(p) && (separator == '+' || separator == '-')
    ensures var s := RenderBody(separator, p);
            && AllVersionChars(s) && |s| >= 3 && AllDigits(s[|s| - 3..])
            && IsDigit(s[0]) && (IsDigit(s[1]) || s[1] == '.')
  {
    var tail := p.custom + "";
    assert tail == p.custom;
    var m := Marker(separator) + tail;
    assert AllVersionChars(m) && m[|m| - 3..] == p.custom;
    var x := "." + (p.patch + m);
    assert AllVersionChars(x) && x[|x| - 3..] == p.custom;
    var y := "." + (p.minor + x);
    assert AllVersionChars(y) && y[|y| - 3..] == p.custom;
    var s := p.major + y;
    assert AllVersionChars(s) && s[|s| - 3..] == p.custom;
  }

  /** A version is made of version characters, ends in three digits and starts with a digit or
      with `v` and a digit. */
  lemma VersionChars(kind: Kind, p: Parts)
    requires WellFormed(p)
    ensures var s := Render(kind, p);
            && AllVersionChars(s) && |s| >= 3 && AllDigits(s[|s| - 3..])
            && (s[0] == 'v' || IsDigit(s[0])) && (IsDigit(s[1]) || s[1] == '.')
  {
    var separator := if kind == OciTag then '-' else '+';
    BodyChars(separator, p);
    var body := RenderBody(separator, p);
    if kind != Application {
      assert ("v" + body)[|body| - 2..] == body[|body| - 3..];
    }
  }

  lemma ParseAnyRenders(s: string)
    ensures ParseAny(s).Some? ==>
              var (kind, p, rest) := ParseAny(s).value;
              WellFormed(p) && s == Render(kind, p) + rest && |rest| < |s|
  {
    ParseRenders(GitTag, s);
    ParseRenders(Application, s);
    ParseRenders(OciTag, s);
    if ParseAny(s).Some? {
      var (kind, p, _) := ParseAny(s).value;
      VersionChars(kind, p);
    }
  }

  lemma RenderParsesAny(kind: Kind, p: Parts, rest: string)
    requires WellFormed(p)
    ensures ParseAny(Render(kind, p) + rest) == Some((kind, p, rest))
    ensures forall k :: Parse(k, Render(kind, p) + rest) == if k == kind then Some((p, rest)) else None
  {
    var s := Render(kind, p) + rest;
    RenderParses(kind, p, rest);
    forall k | k != kind ensures Parse(k, s) == None {
      if Parse(k, s).Some? {
        KindsExclude(k, kind, s);
      }
    }
  }

  /** Whether a version starts here is decided by the leading run of version characters. */
  lemma ParseAnyLocal(run: string, s: string, t: string)
    requires AllVersionChars(run)
    requires s == "" || !IsVersionChar(s[0])
    requires t == "" || !IsVersionChar(t[0])
    requires ParseAny(run + s).Some?
    ensures ParseAny(run + t).Some?
  {
    ParseAnyRenders(run + s);
    var (kind, p, rest) := ParseAny(run + s).value;
    var w := Render(kind, p);
    VersionChars(kind, p);
    assert forall i :: 0 <= i < |w| ==> (run + s)[i] == w[i];
    assert |w| <= |run|;
    assert run == (run + s)[..|run|] == (w + rest)[..|run|];
    assert run == w + run[|w|..];
    Associate(w, run[|w|..], t);
    RenderParsesAny(kind, p, run[|w|..] + t);
  }

  // ---------------------------------------------------------------- tokenizing and rendering

  lemma {:induction false} TokenizeGood(boundary: bool, s: string)
    ensures RenderTokens(Tokenize(boundary, s)) == s
    ensures Good(boundary, Tokenize(boundary, s))
    decreases |s|
  {
    hide ParseAny, Render, WellFormed;
    if s == "" {
    } else if boundary && ParseAny(s).Some? {
      ParseAnyRenders(s);
      var (kind, p, rest) := ParseAny(s).value;
      TokenizeGood(false, rest);
      assert Tokenize(boundary, s)[1..] == Tokenize(false, rest);
    } else {
      TokenizeGood(!IsVersionChar(s[0]), s[1..]);
      var ts := Tokenize(boundary, s);
      assert ts[1..] == Tokenize(!IsVersionChar(s[0]), s[1..]);
      assert s == [s[0]] + s[1..] == RenderTokens(ts);
    }
  }

  lemma {:induction false} GoodTokenizes(boundary: bool, ts: seq<Token>)
    requires Good(boundary, ts)
    ensures Tokenize(boundary, RenderTokens(ts)) == ts
    decreases |ts|
  {
    if ts != [] {
      var s := RenderTokens(ts);
        match ts[0] {
        case Version(kind, p) =>
          RenderParsesAny(kind, p, RenderTokens(ts[1..]));
          VersionChars(kind, p);
          GoodTokenizes(false, ts[1..]);
        case Plain(c) =>
          assert s[0] == c && s[1..] == RenderTokens(ts[1..]);
          GoodTokenizes(!IsVersionChar(c), ts[1..]);
      }
      assert ts == [ts[0]] + ts[1..];
    }
  }

  lemma {:induction false} GoodSplit(boundary: bool, ts: seq<Token>, n: nat)
    requires Good(boundary, ts) && n <= |ts|
    ensures Good(BoundaryAfter(boundary, ts[..n]), ts[n..])
    decreases n
  {
    if n == 0 {
      assert ts[0..] == ts;
    } else {
      var b := BoundaryAfter(boundary, ts[..1]);
      GoodSplit(b, ts[1..], n - 1);
      assert ts[1..][n - 1..] == ts[n..];
      assert ts[1..][..n - 1] == ts[1..n];
      if n > 1 {
        assert ts[1..n][n - 2] == ts[..n][n - 1];
      }
    }
  }

  lemma {:induction false} RenderConcat(a: seq<Token>, b: seq<Token>)
    ensures RenderTokens(a + b) == RenderTokens(a) + RenderTokens(b)
  {
    if a == [] {
      assert a + b == b;
    } else {
      assert (a + b)[1..] == a[1..] + b;
      RenderConcat(a[1..], b);
    }
  }

  /** The version characters at the head of a line whose previous character is one too. */
  function PlainRun(ts: seq<Token>): (n: nat)
    ensures n <= |ts| && forall i :: 0 <= i < n ==> ts[i].Plain? && IsVersionChar(ts[i].c)
  {
    if ts == [] || ts[0].Version? || !IsVersionChar(ts[0].c) then 0 else 1 + PlainRun(ts[1..])
  }

  lemma {:induction false} PlainRunSplits(ts: seq<Token>) returns (run: string, rest: string)
    requires Good(false, ts)
    ensures RenderTokens(ts) == run + rest && AllVersionChars(run) && |run| == PlainRun(ts)
    ensures forall i :: 0 <= i < |run| ==> run[i] == ts[i].c
    ensures rest == "" || !IsVersionChar(rest[0])
  {
    if PlainRun(ts) == 0 {
      run, rest := "", RenderTokens(ts);
    } else {
      var tail := ts[1..];
      var r, z := PlainRunSplits(tail);
      run, rest := [ts[0].c] + r, z;
      Associate([ts[0].c], r, z);
      assert forall i :: 0 <= i < |r| ==> run[i + 1] == r[i] == tail[i].c == ts[i + 1].c;
      assert forall i :: 0 < i < |run| ==> run[i] == r[i - 1];
    }
  }

  lemma {:induction false} PlainRunShape(a: seq<Token>, b: seq<Token>)
    requires SameShape(a, b)
    ensures PlainRun(a) == PlainRun(b)
  {
    if a != [] {
      assert SameShapeToken(a[0], b[0]);
      assert forall i :: 0 <= i < |a| - 1 ==> a[1..][i] == a[i + 1] && b[1..][i] == b[i + 1];
      PlainRunShape(a[1..], b[1..]);
    }
  }

  /** Exchanging versions for versions of the same kind is invisible to the tokenizer. */
  lemma {:induction false} SameShapeGood(boundary: bool, a: seq<Token>, b: seq<Token>)
    requires Good(boundary, a) && SameShape(a, b)
    ensures Good(boundary, b)
    decreases |a|
  {
    if a != [] {
      var a1, b1 := a[1..], b[1..];
      assert SameShapeToken(a[0], b[0]);
      assert forall i :: 0 <= i < |a1| ==> a1[i] == a[i + 1] && b1[i] == b[i + 1];
      SameShapeGood(BoundaryAfter(boundary, a[..1]), a1, b1);
      if a[0].Plain? && boundary && ParseAny(RenderTokens(b)).Some? {
        var c := a[0].c;
        if IsVersionChar(c) {
          var ra, sa := PlainRunSplits(a1);
          var rb, sb := PlainRunSplits(b1);
          PlainRunShape(a1, b1);
          forall i | 0 <= i < |ra| ensures ra[i] == rb[i] {
            assert SameShapeToken(a[i + 1], b[i + 1]);
          }
          assert ra == rb;
          Associate([c], ra, sa);
          Associate([c], rb, sb);
          ParseAnyLocal([c] + ra, sb, sa);
        } else {
          ParseAnyRenders(RenderTokens(b));
          var (kind, p, _) := ParseAny(RenderTokens(b)).value;
          VersionChars(kind, p);
        }
      }
    }
  }
}
