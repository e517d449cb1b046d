/**
 The regular expressions of the release documentation and their `subn`.  Each expression is a
 literal, possibly white space, one version, and a literal or the end of the line.  `Subn` scans
 characters as `re.subn` does: leftmost match first, continuing behind the match.  The main
 result, `SubnIsTokenwise`, says that this scan replaces exactly the marked version tokens of the
 line, where the marks depend only on the line's shape.
 */
module Patterns {
  import opened Strings
  import opened Wrappers
  import opened Versions
  import opened VersionTokens

  datatype Tail =
    | Literal(text: string)   // this text follows the version
    | BlankToEnd              // `(\s*)$`
    | BackslashToEnd          // `(\s+\\)$`

  /** `anchored` is `^` under `re.MULTILINE`; `gap` is `\s+` between the literal and the version. */
  datatype Pattern = Pattern(anchored: bool, literal: string, gap: bool, kind: Kind, tail: Tail)

  datatype Match = Match(before: string, version: string, after: string, rest: string)

  function TakeTail(tail: Tail, s: string): (r: Option<nat>)
    ensures r.Some? ==> r.value <= |s|
  {
    match tail
    case Literal(text) => if text <= s then Some(|text|) else None
    case BlankToEnd => if SpaceRun(s) == |s| then Some(|s|) else None
    case BackslashToEnd =>
      var n := SpaceRun(s);
      if n > 0 && s[n..] == "\\" then Some(|s|) else None
  }

  /** Where the version of a match at the head of `s` must start; `start` says that `s` is a
      whole line. */
  function Front(p: Pattern, start: bool, s: string): (r: Option<nat>)
    ensures r.Some? ==> |p.literal| <= r.value <= |s|
  {
    if (p.anchored && !start) || !(p.literal <= s) then None else
    var w := if p.gap then SpaceRun(s[|p.literal|..]) else 0;
    if p.gap && w == 0 then None else Some(|p.literal| + w)
  }

  function MatchAt(p: Pattern, start: bool, s: string): (m: Option<Match>)
    ensures m.Some? && p.literal != "" ==> |m.value.rest| < |s|
  {
    match Front(p, start, s)
    case None => None
    case Some(at) =>
      match Parse(p.kind, s[at..])
      case None => None
      case Some((q, s3)) =>
        ParseRenders(p.kind, s[at..]);
        match TakeTail(p.tail, s3)
        case None => None
        case Some(n) => Some(Match(s[..at], Render(p.kind, q), s3[..n], s3[n..]))
  }

  /** `re.subn` on one line, keeping what surrounds the version. */
  function Subn(p: Pattern, replacement: string, start: bool, s: string): (string, nat)
    requires p.literal != ""
    decreases |s|
  {
    hide *;
    if s == "" then ("", 0) else
    match MatchAt(p, start, s)
    case Some(m) =>
      var (text, count) := Subn(p, replacement, false, m.rest);
      (m.before + (replacement + (m.after + text)), count + 1)
    case None =>
      var (text, count) := Subn(p, replacement, false, s[1..]);
      ([s[0]] + text, count)
  }

  /** What follows the version of a match. */
  ghost predicate IsTail(tail: Tail, after: string, rest: string) {
    match tail
    case Literal(text) => after == text
    case BlankToEnd => Blank(after) && rest == ""
    case BackslashToEnd => rest == "" && exists blank :: blank != "" && Blank(blank) && after == blank + "\\"
  }

  /** The text is the literal, white space where the expression asks for it, a version, the tail and a rest. */
  ghost predicate IsMatch(p: Pattern, start: bool, s: string, m: Match) {
    && s == m.before + (m.version + (m.after + m.rest)) && (p.anchored ==> start)
    && (exists blank :: m.before == p.literal + blank && Blank(blank) && (p.gap <==> blank != ""))
    && (exists q :: WellFormed(q) && m.version == Render(p.kind, q))
    && IsTail(p.tail, m.after, m.rest)
  }

  lemma {:induction false} SpaceRunOfBlank(s: string)
    ensures SpaceRun(s) == |s| <==> Blank(s)
  {
    if s != "" {
      SpaceRunOfBlank(s[1..]);
      assert Blank(s) <==> IsSpace(s[0]) && Blank(s[1..]) by {
        assert forall i :: 0 < i < |s| ==> s[i] == s[1..][i - 1];
      }
    }
  }

  lemma TailIff(tail: Tail, after: string, rest: string)
    ensures TakeTail(tail, after + rest) == Some(|after|) <==> IsTail(tail, after, rest)
  {
    var s := after + rest;
    match tail {
      case Literal(text) =>
        assert s[..|after|] == after;
        if text <= s && |text| == |after| {
          assert text == s[..|text|];
        }
      case BlankToEnd =>
        SpaceRunOfBlank(s);
        assert rest == "" ==> s == after;
      case BackslashToEnd =>
        assert rest == "" ==> s == after;
        if blank :| rest == "" && blank != "" && Blank(blank) && after == blank + "\\" {
          SpaceRunOf(blank, "\\");
          assert s[|blank|..] == "\\";
        }
        if TakeTail(tail, s) == Some(|after|) {
          var n := SpaceRun(s);
          assert rest == "" && s == s[..n] + s[n..] && Blank(s[..n]);
        }
    }
  }

  lemma FrontIff(p: Pattern, start: bool, blank: string, rest: string)
    requires Blank(blank) && rest != "" && !IsSpace(rest[0])
    ensures var s := p.literal + blank + rest;
            Front(p, start, s) == Some(|p.literal| + |blank|) <==> (p.anchored ==> start) && (p.gap <==> blank != "")
  {
    var s := p.literal + blank + rest;
    assert s[|p.literal|..] == blank + rest;
    SpaceRunOf(blank, rest);
    assert p.literal <= s;
  }

  lemma VersionStarts(kind: Kind, q: Parts)
    requires WellFormed(q)
    ensures Render(kind, q) != "" && !IsSpace(Render(kind, q)[0])
  {
    VersionChars(kind, q);
  }

  /** A match is found at the head of a text exactly when the text is composed as the expression says. */
  lemma MatchIff(p: Pattern, start: bool, s: string, m: Match)
    ensures MatchAt(p, start, s) == Some(m) <==> IsMatch(p, start, s, m)
  {
    if MatchAt(p, start, s) == Some(m) {
      MatchIsOne(p, start, s, m);
    }
    if IsMatch(p, start, s, m) {
      OneIsMatch(p, start, s, m);
    }
  }

  lemma FrontShows(p: Pattern, start: bool, s: string)
    requires Front(p, start, s).Some?
    ensures var at := Front(p, start, s).value;
            && (p.anchored ==> start)
            && exists blank :: s[..at] == p.literal + blank && Blank(blank) && (p.gap <==> blank != "")
  {
    var at := Front(p, start, s).value;
    var blank := s[|p.literal|..at];
    assert s[..at] == p.literal + blank && Blank(blank);
  }

  lemma MatchShowsParts(p: Pattern, start: bool, s: string, m: Match)
    requires MatchAt(p, start, s) == Some(m)
    ensures Front(p, start, s).Some?
    ensures var at := Front(p, start, s).value;
            && Parse(p.kind, s[at..]).Some?
            && var (q, rest) := Parse(p.kind, s[at..]).value;
            && m.before == s[..at] && m.version == Render(p.kind, q)
            && TakeTail(p.tail, rest) == Some(|m.after|) && rest == m.after + m.rest
  {
    hide Front, Parse, TakeTail, Render;
  }

  lemma MatchIsOne(p: Pattern, start: bool, s: string, m: Match)
    requires MatchAt(p, start, s) == Some(m)
    ensures IsMatch(p, start, s, m)
  {
    hide Front, Parse, Render, WellFormed, TakeTail, IsTail, MatchAt;
    MatchShowsParts(p, start, s, m);
    var at := Front(p, start, s).value;
    FrontShows(p, start, s);
    ParseRenders(p.kind, s[at..]);
    var (q, rest) := Parse(p.kind, s[at..]).value;
    assert WellFormed(q) && m.version == Render(p.kind, q) && s[at..] == m.version + (m.after + m.rest);
    TailIff(p.tail, m.after, m.rest);
    assert s == s[..at] + s[at..];
  }

  lemma OneIsMatch(p: Pattern, start: bool, s: string, m: Match)
    requires IsMatch(p, start, s, m)
    ensures MatchAt(p, start, s) == Some(m)
  {
    var blank :| m.before == p.literal + blank && Blank(blank) && (p.gap <==> blank != "");
    var q :| WellFormed(q) && m.version == Render(p.kind, q);
    VersionStarts(p.kind, q);
    RenderParses(p.kind, q, m.after + m.rest);
    TailIff(p.tail, m.after, m.rest);
    hide Parse, Render, WellFormed, TakeTail, IsTail, Front;
    var rest := m.version + (m.after + m.rest);
    FrontIff(p, start, blank, rest);
    assert s == p.literal + blank + rest;
    var at := |m.before|;
    assert s[..at] == m.before && s[at..] == rest;
    assert (m.after + m.rest)[..|m.after|] == m.after && (m.after + m.rest)[|m.after|..] == m.rest;
  }

  // ---------------------------------------------------------------- the same on tokens

  datatype TokenMatch = TokenMatch(before: nat, after: nat)

  function Plains(s: string): seq<Token> {
    seq(|s|, i requires 0 <= i < |s| => Plain(s[i]))
  }

  function TokenSpaceRun(ts: seq<Token>): (n: nat)
    ensures n <= |ts| && forall i :: 0 <= i < n ==> ts[i].Plain? && IsSpace(ts[i].c)
    ensures n < |ts| ==> ts[n].Version? || !IsSpace(ts[n].c)
  {
    if ts == [] || ts[0].Version? || !IsSpace(ts[0].c) then 0 else 1 + TokenSpaceRun(ts[1..])
  }

  function TokenTail(tail: Tail, ts: seq<Token>): (r: Option<nat>)
    ensures r.Some? ==> r.value <= |ts|
  {
    match tail
    case Literal(text) => if Plains(text) <= ts then Some(|text|) else None
    case BlankToEnd => if TokenSpaceRun(ts) == |ts| then Some(|ts|) else None
    case BackslashToEnd =>
      var n := TokenSpaceRun(ts);
      if n > 0 && ts[n..] == [Plain('\\')] then Some(|ts|) else None
  }

  function TokenFront(p: Pattern, start: bool, ts: seq<Token>): (r: Option<nat>)
    ensures r.Some? ==> |p.literal| <= r.value <= |ts|
  {
    if (p.anchored && !start) || !(Plains(p.literal) <= ts) then None else
    var w := if p.gap then TokenSpaceRun(ts[|p.literal|..]) else 0;
    if p.gap && w == 0 then None else Some(|p.literal| + w)
  }

  /** How many tokens precede the version of the match at the head of `ts`, and how many follow. */
  function TokenMatchAt(p: Pattern, start: bool, ts: seq<Token>): (m: Option<TokenMatch>)
    ensures m.Some? ==> m.value.before + 1 + m.value.after <= |ts|
    ensures m.Some? ==> ts[m.value.before].Version? && ts[m.value.before].kind == p.kind
  {
    match TokenFront(p, start, ts)
    case None => None
    case Some(at) =>
      if at == |ts| || ts[at].Plain? || ts[at].kind != p.kind then None else
      match TokenTail(p.tail, ts[at + 1..])
      case None => None
      case Some(n) => Some(TokenMatch(at, n))
  }

  function Falses(n: nat): (marks: seq<bool>)
    ensures |marks| == n && forall i :: 0 <= i < n ==> !marks[i]
  {
    seq(n, i => false)
  }

  /** One mark among unmarked tokens, before further marks. */
  function Splice(before: nat, after: nat, rest: seq<bool>): (marks: seq<bool>)
    ensures |marks| == before + 1 + after + |rest|
    ensures forall i :: 0 <= i < |marks| && marks[i] ==> i == before || (before + 1 + after <= i && rest[i - before - 1 - after])
  {
    Falses(before) + [true] + Falses(after) + rest
  }

  function Unmarked(rest: seq<bool>): (marks: seq<bool>)
    ensures |marks| == 1 + |rest|
    ensures forall i :: 0 <= i < |marks| && marks[i] ==> 0 < i && rest[i - 1]
  {
    [false] + rest
  }

  /** Which tokens of the line the expression captures as its version. */
  function Marks(p: Pattern, start: bool, ts: seq<Token>): (marks: seq<bool>)
    ensures |marks| == |ts|
    ensures forall i :: 0 <= i < |ts| && marks[i] ==> ts[i].Version? && ts[i].kind == p.kind
    decreases |ts|
  {
    if ts == [] then [] else
    hide *;
    match TokenMatchAt(p, start, ts)
    case Some(m) => Splice(m.before, m.after, Marks(p, false, ts[m.before + 1 + m.after..]))
    case None => Unmarked(Marks(p, false, ts[1..]))
  }

  function Count(marks: seq<bool>): nat {
    if marks == [] then 0 else (if marks[0] then 1 else 0) + Count(marks[1..])
  }

  /** Writes `parts` into every marked version. */
  function Apply(marks: seq<bool>, parts: Parts, ts: seq<Token>): (r: seq<Token>)
    requires |marks| == |ts|
    ensures |r| == |ts|
  {
    seq(|ts|, i requires 0 <= i < |ts| =>
      if marks[i] && ts[i].Version? then Version(ts[i].kind, parts) else ts[i])
  }

  // ---------------------------------------------------------------- which expressions qualify

  /** No version starts inside this text, whatever follows it. */
  predicate NoStart(x: string) {
    forall i :: 0 <= i < |x| && (x[i] == 'v' || IsDigit(x[i])) ==>
                  i + 1 < |x| && !IsDigit(x[i + 1]) && x[i + 1] != '.'
  }

  /** What makes an expression independent of the digits around it: its literals hold no version,
      the version follows a character that cannot belong to one, and the literal cannot start
      inside a version. */
  predicate WellBuilt(p: Pattern) {
    && |p.literal| >= 3
    && NoStart(p.literal)
    && !IsDigit(p.literal[0])
    && !AllVersionChars(p.literal[..3])
    && !IsVersionChar(p.literal[|p.literal| - 1])
    && (p.tail.Literal? ==> NoStart(p.tail.text))
  }

  // ---------------------------------------------------------------- characters against tokens

  lemma {:induction false} RenderPlains(s: string)
    ensures RenderTokens(Plains(s)) == s
  {
    if s != "" {
      assert Plains(s)[1..] == Plains(s[1..]);
      RenderPlains(s[1..]);
    }
  }

  /** Text in which no version starts is read character by character. */
  lemma {:induction false} ReadPlains(boundary: bool, ts: seq<Token>, x: string, rest: string)
    requires Good(boundary, ts) && RenderTokens(ts) == x + rest && NoStart(x)
    ensures Plains(x) <= ts && RenderTokens(ts[|x|..]) == rest
    decreases |x|
  {
    hide ParseAny, Render, WellFormed;
    if x != "" {
      assert ts != [];
      assert RenderTokens(ts)[0] == x[0] && (|x| > 1 ==> RenderTokens(ts)[1] == x[1]);
      if ts[0].Version? {
        VersionChars(ts[0].kind, ts[0].parts);
        assert false;
      } else {
        var y := x[1..];
        assert RenderTokens(ts)[1..] == RenderTokens(ts[1..]) == y + rest;
        ReadPlains(!IsVersionChar(x[0]), ts[1..], y, rest);
        assert Plains(x) == [Plain(x[0])] + Plains(y);
        assert ts == [ts[0]] + ts[1..];
        assert ts[1..][|y|..] == ts[|x|..];
      }
    } else {
      assert ts[0..] == ts;
      assert x + rest == rest;
    }
  }

  predicate AllPlain(ts: seq<Token>) {
    forall i :: 0 <= i < |ts| ==> ts[i].Plain?
  }

  lemma {:induction false} DropPlain(ts: seq<Token>, n: nat)
    requires n <= |ts| && AllPlain(ts[..n])
    ensures n <= |RenderTokens(ts)|
    ensures RenderTokens(ts[..n]) == RenderTokens(ts)[..n]
    ensures RenderTokens(ts[n..]) == RenderTokens(ts)[n..]
  {
    if n == 0 {
      assert ts[..0] == [] && ts[0..] == ts;
    } else {
      var tail := ts[1..];
      assert ts[0] == ts[..n][0];
      assert ts[..n][1..] == tail[..n - 1];
      DropPlain(tail, n - 1);
      assert tail[n - 1..] == ts[n..];
      assert RenderTokens(ts)[1..] == RenderTokens(tail);
      assert RenderTokens(ts)[..n] == [ts[0].c] + RenderTokens(tail)[..n - 1];
    }
  }

  lemma DropPlains(ts: seq<Token>, x: string)
    requires Plains(x) <= ts
    ensures x <= RenderTokens(ts)
    ensures RenderTokens(ts[|x|..]) == RenderTokens(ts)[|x|..]
    ensures RenderTokens(ts[..|x|]) == RenderTokens(ts)[..|x|] == x
  {
    RenderPlains(x);
    assert ts[..|x|] == Plains(x);
    DropPlain(ts, |x|);
  }

  lemma {:induction false} ReadSpaces(boundary: bool, ts: seq<Token>)
    requires Good(boundary, ts)
    ensures SpaceRun(RenderTokens(ts)) == TokenSpaceRun(ts)
    decreases |ts|
  {
    if ts == [] {
    } else if ts[0].Version? {
      VersionChars(ts[0].kind, ts[0].parts);
    } else if IsSpace(ts[0].c) {
      ReadSpaces(true, ts[1..]);
      assert RenderTokens(ts)[1..] == RenderTokens(ts[1..]);
    }
  }

  lemma RenderEmpty(boundary: bool, ts: seq<Token>)
    requires Good(boundary, ts) && RenderTokens(ts) == ""
    ensures ts == []
  {
    if ts != [] && ts[0].Version? {
      VersionChars(ts[0].kind, ts[0].parts);
    }
  }

  lemma ReadBackslash(boundary: bool, ts: seq<Token>)
    requires Good(boundary, ts)
    ensures RenderTokens(ts) == "\\" <==> ts == [Plain('\\')]
  {
    assert RenderTokens([Plain('\\')]) == "\\" by { assert RenderTokens([]) == ""; }
    hide Good, RenderTokens, BoundaryAfter;
    if RenderTokens(ts) == "\\" {
      assert "\\" + "" == "\\" && NoStart("\\");
      ReadPlains(boundary, ts, "\\", "");
      GoodSplit(boundary, ts, 1);
      RenderEmpty(BoundaryAfter(boundary, ts[..1]), ts[1..]);
      assert ts == ts[..1] + ts[1..];
      assert ts[0] == Plains("\\")[0];
    }
  }

  lemma ReadLiteralTail(x: string, boundary: bool, ts: seq<Token>)
    requires Good(boundary, ts) && NoStart(x)
    ensures x <= RenderTokens(ts) <==> Plains(x) <= ts
  {
    hide Good, RenderTokens, ParseAny, Parse;
    var s := RenderTokens(ts);
    if x <= s {
      assert s == x + s[|x|..];
      ReadPlains(boundary, ts, x, s[|x|..]);
    }
    if Plains(x) <= ts {
      DropPlains(ts, x);
    }
  }

  lemma ReadBlankTail(boundary: bool, ts: seq<Token>)
    requires Good(boundary, ts)
    ensures SpaceRun(RenderTokens(ts)) == |RenderTokens(ts)| <==> TokenSpaceRun(ts) == |ts|
    ensures TokenSpaceRun(ts) == |ts| ==> |RenderTokens(ts)| == |ts|
  {
    var n := TokenSpaceRun(ts);
    ReadSpaces(boundary, ts);
    DropPlain(ts, n);
    if n == |RenderTokens(ts)| {
      GoodSplit(boundary, ts, n);
      RenderEmpty(BoundaryAfter(boundary, ts[..n]), ts[n..]);
    }
    if n == |ts| {
      assert ts[n..] == [];
    }
  }

  lemma ReadBackslashTail(boundary: bool, ts: seq<Token>)
    requires Good(boundary, ts)
    ensures TakeTail(BackslashToEnd, RenderTokens(ts)) == TokenTail(BackslashToEnd, ts)
    ensures TokenTail(BackslashToEnd, ts).Some? ==> AllPlain(ts)
  {
    hide Good, RenderTokens, ParseAny, Parse;
    var n := TokenSpaceRun(ts);
    ReadSpaces(boundary, ts);
    DropPlain(ts, n);
    GoodSplit(boundary, ts, n);
    ReadBackslash(BoundaryAfter(boundary, ts[..n]), ts[n..]);
    if ts[n..] == [Plain('\\')] {
      assert ts == ts[..n] + [Plain('\\')];
      assert |RenderTokens(ts)[n..]| == 1;
    }
  }

  lemma ReadTail(tail: Tail, boundary: bool, ts: seq<Token>)
    requires Good(boundary, ts) && (tail.Literal? ==> NoStart(tail.text))
    ensures TakeTail(tail, RenderTokens(ts)) == TokenTail(tail, ts)
    ensures TokenTail(tail, ts).Some? ==> AllPlain(ts[..TokenTail(tail, ts).value])
  {
    match tail
    case Literal(x) => ReadLiteralTail(x, boundary, ts);
    case BlankToEnd => ReadBlankTail(boundary, ts);
    case BackslashToEnd => ReadBackslashTail(boundary, ts);
  }

  /** The version behind the literal and the gap is one token. */
  lemma ReadVersion(kind: Kind, ts: seq<Token>)
    requires Good(true, ts)
    ensures match Parse(kind, RenderTokens(ts))
            case Some((q, rest)) => ts != [] && ts[0] == Version(kind, q) && rest == RenderTokens(ts[1..]) && Good(false, ts[1..])
            case None => ts == [] || ts[0].Plain? || ts[0].kind != kind
  {
    var s := RenderTokens(ts);
    if ts != [] && ts[0].Version? {
      RenderParsesAny(ts[0].kind, ts[0].parts, RenderTokens(ts[1..]));
    } else if Parse(kind, s).Some? {
      ParseRenders(kind, s);
      var (q, rest) := Parse(kind, s).value;
      RenderParsesAny(kind, q, rest);
      VersionChars(kind, q);
    }
  }

  ghost predicate Agree(m: Option<Match>, t: Option<TokenMatch>, ts: seq<Token>)
    requires t.Some? ==> t.value.before + 1 + t.value.after <= |ts|
  {
    match (m, t)
    case (None, None) => true
    case (Some(c), Some(k)) =>
      && c.before == RenderTokens(ts[..k.before])
      && c.version == RenderToken(ts[k.before])
      && c.after == RenderTokens(ts[k.before + 1..k.before + 1 + k.after])
      && c.rest == RenderTokens(ts[k.before + 1 + k.after..])
    case _ => false
  }

  lemma BehindLiteral(p: Pattern, boundary: bool, ts: seq<Token>)
    requires WellBuilt(p) && Good(boundary, ts) && Plains(p.literal) <= ts
    ensures Good(true, ts[|p.literal|..]) && AllPlain(ts[..|p.literal|])
    ensures |p.literal| <= |RenderTokens(ts)|
    ensures RenderTokens(ts[|p.literal|..]) == RenderTokens(ts)[|p.literal|..]
  {
    var n := |p.literal|;
    DropPlains(ts, p.literal);
    GoodSplit(boundary, ts, n);
    assert ts[..n] == Plains(p.literal);
    assert BoundaryAfter(boundary, Plains(p.literal));
  }

  lemma BehindGap(ts: seq<Token>)
    requires Good(true, ts)
    ensures Good(true, ts[TokenSpaceRun(ts)..]) && AllPlain(ts[..TokenSpaceRun(ts)])
  {
    GoodSplit(true, ts, TokenSpaceRun(ts));
    assert BoundaryAfter(true, ts[..TokenSpaceRun(ts)]);
  }

  lemma FrontAgrees(p: Pattern, start: bool, boundary: bool, ts: seq<Token>)
    requires WellBuilt(p) && Good(boundary, ts)
    ensures Front(p, start, RenderTokens(ts)) == TokenFront(p, start, ts)
  {
    hide Good, RenderTokens, ParseAny, Parse;
    ReadLiteralTail(p.literal, boundary, ts);
    if Plains(p.literal) <= ts {
      BehindLiteral(p, boundary, ts);
      ReadSpaces(true, ts[|p.literal|..]);
    }
  }

  lemma FrontIsPlain(p: Pattern, start: bool, boundary: bool, ts: seq<Token>)
    requires WellBuilt(p) && Good(boundary, ts) && TokenFront(p, start, ts).Some?
    ensures AllPlain(ts[..TokenFront(p, start, ts).value]) && Good(true, ts[TokenFront(p, start, ts).value..])
  {
    hide Good, RenderTokens, ParseAny, Parse;
    var n, at := |p.literal|, TokenFront(p, start, ts).value;
    BehindLiteral(p, boundary, ts);
    BehindGap(ts[n..]);
    if p.gap {
      assert ts[n..][at - n..] == ts[at..];
      assert ts[..at] == ts[..n] + ts[n..][..at - n];
    }
  }

  lemma VersionMatchAgrees(p: Pattern, at: nat, ts: seq<Token>)
    requires (p.tail.Literal? ==> NoStart(p.tail.text)) && at < |ts| && AllPlain(ts[..at]) && Good(true, ts[at..])
    requires ts[at].Version? && ts[at].kind == p.kind
    ensures at <= |RenderTokens(ts)|
    ensures Parse(p.kind, RenderTokens(ts)[at..]) == Some((ts[at].parts, RenderTokens(ts[at + 1..])))
    ensures TakeTail(p.tail, RenderTokens(ts[at + 1..])) == TokenTail(p.tail, ts[at + 1..])
    ensures TokenTail(p.tail, ts[at + 1..]).Some? ==>
              var n := TokenTail(p.tail, ts[at + 1..]).value;
              && RenderTokens(ts[at + 1..at + 1 + n]) == RenderTokens(ts[at + 1..])[..n]
              && RenderTokens(ts[at + 1 + n..]) == RenderTokens(ts[at + 1..])[n..]
  {
    hide Good, RenderTokens, ParseAny, Parse, TakeTail, TokenTail, NoStart;
    DropPlain(ts, at);
    ReadVersion(p.kind, ts[at..]);
    var ts3 := ts[at + 1..];
    assert ts[at..][1..] == ts3;
    ReadTail(p.tail, false, ts3);
    if TokenTail(p.tail, ts3).Some? {
      var n := TokenTail(p.tail, ts3).value;
      DropPlain(ts3, n);
      assert ts3[..n] == ts[at + 1..at + 1 + n] && ts3[n..] == ts[at + 1 + n..];
    }
  }

  lemma MatchAgreesAtVersion(p: Pattern, start: bool, at: nat, ts: seq<Token>)
    requires (p.tail.Literal? ==> NoStart(p.tail.text))
    requires at < |ts| && AllPlain(ts[..at]) && Good(true, ts[at..]) && ts[at].Version? && ts[at].kind == p.kind
    requires Front(p, start, RenderTokens(ts)) == TokenFront(p, start, ts) == Some(at)
    ensures Agree(MatchAt(p, start, RenderTokens(ts)), TokenMatchAt(p, start, ts), ts)
  {
    hide Good, RenderTokens, ParseAny, Parse, TakeTail, TokenTail, Front, TokenFront, NoStart, AllPlain;
    DropPlain(ts, at);
    VersionMatchAgrees(p, at, ts);
  }

  lemma MatchAgreesElsewhere(p: Pattern, start: bool, at: nat, ts: seq<Token>)
    requires at <= |ts| && AllPlain(ts[..at]) && Good(true, ts[at..])
    requires at == |ts| || ts[at].Plain? || ts[at].kind != p.kind
    requires Front(p, start, RenderTokens(ts)) == TokenFront(p, start, ts) == Some(at)
    ensures MatchAt(p, start, RenderTokens(ts)) == None && TokenMatchAt(p, start, ts) == None
  {
    hide Good, RenderTokens, ParseAny, Parse, TakeTail, TokenTail, Front, TokenFront, AllPlain;
    DropPlain(ts, at);
    ReadVersion(p.kind, ts[at..]);
  }

  /** Matching characters and matching tokens find the same match. */
  lemma MatchAgrees(p: Pattern, start: bool, boundary: bool, ts: seq<Token>)
    requires WellBuilt(p) && Good(boundary, ts)
    ensures Agree(MatchAt(p, start, RenderTokens(ts)), TokenMatchAt(p, start, ts), ts)
  {
    hide Good, RenderTokens, ParseAny, Parse, TakeTail, TokenTail, Front, TokenFront, NoStart;
    FrontAgrees(p, start, boundary, ts);
    if TokenFront(p, start, ts).Some? {
      FrontIsPlain(p, start, boundary, ts);
      var at := TokenFront(p, start, ts).value;
      if at < |ts| && ts[at].Version? && ts[at].kind == p.kind {
        MatchAgreesAtVersion(p, start, at, ts);
      } else {
        MatchAgreesElsewhere(p, start, at, ts);
      }
    }
  }

  // ---------------------------------------------------------------- the scan is tokenwise

  /** The literal of an expression cannot start inside a version. */
  lemma NoMatchInVersion(p: Pattern, kind: Kind, q: Parts, i: nat, rest: string)
    requires WellBuilt(p) && WellFormed(q) && i < |Render(kind, q)|
    ensures !(p.literal <= Render(kind, q)[i..] + rest)
  {
    var w := Render(kind, q);
    VersionChars(kind, q);
    var s := w[i..] + rest;
    if i + 3 <= |w| {
      var k :| 0 <= k < 3 && !IsVersionChar(p.literal[..3][k]);
      assert s[k] == w[i + k] && p.literal[k] != s[k];
    } else {
      assert s[0] == w[i] == w[|w| - 3..][i + 3 - |w|];
    }
  }

  lemma {:induction false} CopyThrough(p: Pattern, replacement: string, start: bool, w: string, rest: string)
    requires p.literal != "" && w != ""
    requires forall i :: 0 <= i < |w| ==> !(p.literal <= w[i..] + rest)
    ensures Subn(p, replacement, start, w + rest) ==
            (w + Subn(p, replacement, false, rest).0, Subn(p, replacement, false, rest).1)
    decreases |w|
  {
    var s, v := w + rest, w[1..];
    assert s[1..] == v + rest;
    assert w[0..] == w;
    assert MatchAt(p, start, s) == None;
    if v == "" {
      assert v + rest == rest;
      assert w == [w[0]];
    } else {
      forall i | 0 <= i < |v| ensures !(p.literal <= v[i..] + rest) {
        assert v[i..] == w[i + 1..];
      }
      CopyThrough(p, replacement, false, v, rest);
      var text := Subn(p, replacement, false, rest).0;
      assert s[0] == w[0] && w == [w[0]] + v;
      Associate([w[0]], v, text);
    }
  }

  lemma {:induction false} CountConcat(a: seq<bool>, b: seq<bool>)
    ensures Count(a + b) == Count(a) + Count(b)
  {
    if a == [] {
      assert a + b == b;
    } else {
      assert (a + b)[1..] == a[1..] + b;
      CountConcat(a[1..], b);
    }
  }

  lemma {:induction false} CountFalses(n: nat)
    ensures Count(Falses(n)) == 0
  {
    if n > 0 {
      assert Falses(n)[1..] == Falses(n - 1);
      CountFalses(n - 1);
    }
  }

  lemma CountMatch(before: nat, after: nat, rest: seq<bool>)
    ensures Count(Falses(before) + [true] + Falses(after) + rest) == 1 + Count(rest)
  {
    CountFalses(before);
    CountFalses(after);
    CountConcat(Falses(before), [true]);
    CountConcat(Falses(before) + [true], Falses(after));
    CountConcat(Falses(before) + [true] + Falses(after), rest);
  }

  lemma ApplyMatch(before: nat, after: nat, rest: seq<bool>, parts: Parts, ts: seq<Token>)
    requires before + 1 + after + |rest| == |ts| && ts[before].Version?
    ensures var end := before + 1 + after;
            Apply(Falses(before) + [true] + Falses(after) + rest, parts, ts) ==
            ts[..before] + ([Version(ts[before].kind, parts)] + (ts[before + 1..end] + Apply(rest, parts, ts[end..])))
  {
  }

  lemma ApplySkip(rest: seq<bool>, parts: Parts, ts: seq<Token>)
    requires 1 + |rest| == |ts|
    ensures Apply([false] + rest, parts, ts) == [ts[0]] + Apply(rest, parts, ts[1..])
  {
  }

  /** How far the scan moves in one step. */
  function Stride(p: Pattern, start: bool, ts: seq<Token>): (n: nat)
    requires ts != []
    ensures 1 <= n <= |ts|
  {
    match TokenMatchAt(p, start, ts) case Some(m) => m.before + 1 + m.after case None => 1
  }

  lemma TokenwiseEmpty(p: Pattern, parts: Parts, start: bool)
    requires p.literal != ""
    ensures Tokenwise(p, parts, start, [])
  {
  }

  lemma TokenwiseStep(p: Pattern, parts: Parts, start: bool, boundary: bool, ts: seq<Token>)
    requires p.literal != "" && WellBuilt(p) && WellFormed(parts) && Good(boundary, ts) && ts != []
    requires Tokenwise(p, parts, false, ts[Stride(p, start, ts)..])
    ensures Tokenwise(p, parts, start, ts)
  {
    hide Good, WellBuilt, WellFormed, TokenMatchAt, MatchAt, Tokenwise, RenderTokens;
    MatchAgrees(p, start, boundary, ts);
    match TokenMatchAt(p, start, ts) {
      case Some(m) => SubnAtMatch(p, parts, start, ts, m);
      case None => SubnWithoutMatch(p, parts, start, boundary, ts);
    }
  }

  /** `subn` rewrites exactly the marked versions and counts them. */
  lemma {:induction false} SubnIsTokenwise(p: Pattern, parts: Parts, start: bool, boundary: bool, ts: seq<Token>)
    requires p.literal != "" && WellBuilt(p) && WellFormed(parts) && Good(boundary, ts)
    ensures Tokenwise(p, parts, start, ts)
    decreases |ts|
  {
    hide Good, WellBuilt, WellFormed, Tokenwise, Stride;
    if ts == [] {
      TokenwiseEmpty(p, parts, start);
    } else {
      var n := Stride(p, start, ts);
      GoodSplit(boundary, ts, n);
      SubnIsTokenwise(p, parts, false, BoundaryAfter(boundary, ts[..n]), ts[n..]);
      TokenwiseStep(p, parts, start, boundary, ts);
    }
  }

  lemma SubnHead(p: Pattern, replacement: string, start: bool, s: string, m: Match)
    requires p.literal != "" && MatchAt(p, start, s) == Some(m)
    ensures var (text, count) := Subn(p, replacement, false, m.rest);
            Subn(p, replacement, start, s) == (m.before + (replacement + (m.after + text)), count + 1)
  {
  }

  lemma SubnSkip(p: Pattern, replacement: string, start: bool, s: string)
    requires p.literal != "" && s != "" && MatchAt(p, start, s) == None
    ensures var (text, count) := Subn(p, replacement, false, s[1..]);
            Subn(p, replacement, start, s) == ([s[0]] + text, count)
  {
  }

  lemma MarksHead(p: Pattern, start: bool, ts: seq<Token>, m: TokenMatch)
    requires ts != [] && TokenMatchAt(p, start, ts) == Some(m)
    ensures Marks(p, start, ts) ==
            Falses(m.before) + [true] + Falses(m.after) + Marks(p, false, ts[m.before + 1 + m.after..])
  {
    hide TokenMatchAt, Falses, Marks;
    MarksAreSpliced(p, start, ts, m);
  }

  lemma MarksAreSpliced(p: Pattern, start: bool, ts: seq<Token>, m: TokenMatch)
    requires ts != [] && TokenMatchAt(p, start, ts) == Some(m)
    ensures Marks(p, start, ts) == Splice(m.before, m.after, Marks(p, false, ts[m.before + 1 + m.after..]))
  {
    hide TokenMatchAt, Falses, Splice;
  }

  lemma MarksSkip(p: Pattern, start: bool, ts: seq<Token>)
    requires ts != [] && TokenMatchAt(p, start, ts) == None
    ensures Marks(p, start, ts) == [false] + Marks(p, false, ts[1..])
  {
    hide TokenMatchAt, Falses;
  }

  lemma ApplyAtMatch(p: Pattern, parts: Parts, start: bool, ts: seq<Token>, m: TokenMatch)
    requires ts != [] && TokenMatchAt(p, start, ts) == Some(m)
    ensures var marks := Marks(p, start, ts);
            var end := m.before + 1 + m.after;
            var rest := Marks(p, false, ts[end..]);
            && Count(marks) == Count(rest) + 1
            && RenderTokens(Apply(marks, parts, ts)) ==
               RenderTokens(ts[..m.before]) + (Render(p.kind, parts) +
               (RenderTokens(ts[m.before + 1..end]) + RenderTokens(Apply(rest, parts, ts[end..]))))
  {
    hide Apply, Count, RenderTokens, Marks, Falses, TokenMatchAt, Render;
    MarksHead(p, start, ts, m);
    var end := m.before + 1 + m.after;
    var rest := Marks(p, false, ts[end..]);
    CountMatch(m.before, m.after, rest);
    ApplyMatch(m.before, m.after, rest, parts, ts);
    RenderSpliced(ts[..m.before], Version(p.kind, parts), ts[m.before + 1..end], Apply(rest, parts, ts[end..]));
  }

  ghost predicate Tokenwise(p: Pattern, parts: Parts, start: bool, ts: seq<Token>)
    requires p.literal != ""
  {
    var marks := Marks(p, start, ts);
    Subn(p, Render(p.kind, parts), start, RenderTokens(ts)) == (RenderTokens(Apply(marks, parts, ts)), Count(marks))
  }

  lemma SubnAtMatch(p: Pattern, parts: Parts, start: bool, ts: seq<Token>, m: TokenMatch)
    requires p.literal != "" && TokenMatchAt(p, start, ts) == Some(m)
    requires Agree(MatchAt(p, start, RenderTokens(ts)), Some(m), ts)
    requires Tokenwise(p, parts, false, ts[m.before + 1 + m.after..])
    ensures Tokenwise(p, parts, start, ts)
  {
    hide TokenMatchAt, MatchAt, Apply, Count, Subn, RenderTokens, Marks, Render, Parse;
    var c := MatchAt(p, start, RenderTokens(ts)).value;
    SubnHead(p, Render(p.kind, parts), start, RenderTokens(ts), c);
    ApplyAtMatch(p, parts, start, ts, m);
    var rest := ts[m.before + 1 + m.after..];
    assert c.rest == RenderTokens(rest);
    var (text, count) := Subn(p, Render(p.kind, parts), false, c.rest);
    assert text == RenderTokens(Apply(Marks(p, false, rest), parts, rest));
    assert count == Count(Marks(p, false, rest));
  }

  lemma RenderSpliced(before: seq<Token>, version: Token, after: seq<Token>, rest: seq<Token>)
    ensures RenderTokens(before + ([version] + (after + rest))) ==
            RenderTokens(before) + (RenderToken(version) + (RenderTokens(after) + RenderTokens(rest)))
  {
    RenderConcat(after, rest);
    RenderConcat([version], after + rest);
    RenderConcat(before, [version] + (after + rest));
    assert RenderTokens([version]) == RenderToken(version) + RenderTokens([]);
  }

  lemma SubnWithoutMatch(p: Pattern, parts: Parts, start: bool, boundary: bool, ts: seq<Token>)
    requires WellBuilt(p) && WellFormed(parts) && Good(boundary, ts) && ts != []
    requires TokenMatchAt(p, start, ts) == None && MatchAt(p, start, RenderTokens(ts)) == None
    requires Tokenwise(p, parts, false, ts[1..])
    ensures Tokenwise(p, parts, start, ts)
  {
    ApplySkip(Marks(p, false, ts[1..]), parts, ts);
    var rest := RenderTokens(ts[1..]);
    match ts[0] {
      case Plain(c) =>
        assert RenderTokens(ts)[1..] == rest;
      case Version(kind, q) =>
        forall i | 0 <= i < |Render(kind, q)| ensures !(p.literal <= Render(kind, q)[i..] + rest) {
          NoMatchInVersion(p, kind, q, i, rest);
        }
        VersionChars(kind, q);
        CopyThrough(p, Render(p.kind, parts), start, Render(kind, q), rest);
    }
  }
}
