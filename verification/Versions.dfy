/**
 The version grammar shared by the release tools: a tag `v1.2.3+custom.004`, the application
 version `1.2.3+custom.004`, and the OCI tag `v1.2.3-custom.004`.  Parsing works on characters
 and follows the regular expressions of those tools (digits are the ASCII digits); printing is
 its exact inverse.
 */
module Versions {
  import opened Strings
  import opened Wrappers
  import opened StringOrder

  /** The digit groups of a version; `custom` is the three-digit overlay number. */
  datatype Parts = Parts(major: string, minor: string, patch: string, custom: string)

  datatype Kind = GitTag | Application | OciTag

  type Key = (nat, nat, nat, nat)

  predicate AllDigits(s: string) {
    forall i :: 0 <= i < |s| ==> IsDigit(s[i])
  }

  predicate WellFormed(p: Parts) {
    && p.major != "" && AllDigits(p.major)
    && p.minor != "" && AllDigits(p.minor)
    && p.patch != "" && AllDigits(p.patch)
    && |p.custom| == 3 && AllDigits(p.custom)
  }

  /** Length of the longest run of digits at the head of `s`: what `\d+` consumes. */
  function DigitRun(s: string): (n: nat)
    ensures n <= |s|
  {
    if s == "" || !IsDigit(s[0]) then 0 else 1 + DigitRun(s[1..])
  }

  lemma {:induction false} DigitRunIsDigits(s: string)
    ensures AllDigits(s[..DigitRun(s)])
    ensures DigitRun(s) < |s| ==> !IsDigit(s[DigitRun(s)])
  {
    if s != "" && IsDigit(s[0]) {
      DigitRunIsDigits(s[1..]);
      assert s[..DigitRun(s)] == [s[0]] + s[1..][..DigitRun(s[1..])];
    }
  }

  function Marker(separator: char): string {
    [separator] + "custom."
  }

  /** Digits, a literal, and the rest: the digits and the rest. */
  function TakeNumber(s: string, literal: string): Option<(string, string)> {
    var n := DigitRun(s);
    if n > 0 && literal <= s[n..] then Some((s[..n], s[n + |literal|..])) else None
  }

  /** The dotted version followed by `rest`. */
  function RenderThen(separator: char, p: Parts, rest: string): string {
    p.major + ("." + (p.minor + ("." + (p.patch + (Marker(separator) + (p.custom + rest))))))
  }

  function RenderBody(separator: char, p: Parts): string {
    RenderThen(separator, p, "")
  }

  function Separator(kind: Kind): char {
    if kind == OciTag then '-' else '+'
  }

  function Render(kind: Kind, p: Parts): string {
    if kind == Application then RenderBody('+', p) else "v" + RenderBody(Separator(kind), p)
  }

  /** The match of `\d+\.\d+\.\d+` with separator, `custom.` and `\d{3}`, with what follows it. */
  function ParseBody(separator: char, s: string): Option<(Parts, string)> {
    match TakeNumber(s, ".") case None => None case Some((major, s1)) =>
    match TakeNumber(s1, ".") case None => None case Some((minor, s2)) =>
    match TakeNumber(s2, Marker(separator)) case None => None case Some((patch, s3)) =>
    if |s3| < 3 || !AllDigits(s3[..3]) then None
    else Some((Parts(major, minor, patch, s3[..3]), s3[3..]))
  }

  /** The version a regular expression of this kind matches at the head of `s`, and the rest. */
  function Parse(kind: Kind, s: string): Option<(Parts, string)> {
    if kind == Application then ParseBody('+', s)
    else if s == "" || s[0] != 'v' then None
    else ParseBody(Separator(kind), s[1..])
  }

  /** `re.fullmatch`: the whole of `s` is a version of this kind. */
  function ParseAll(kind: Kind, s: string): Option<Parts> {
    match Parse(kind, s)
    case Some((p, rest)) => if rest == "" then Some(p) else None
    case None => None
  }

  lemma DigitRunOf(d: string, rest: string)
    requires AllDigits(d)
    requires rest == "" || !IsDigit(rest[0])
    ensures DigitRun(d + rest) == |d|
  {
    if d == "" {
      assert d + rest == rest;
    } else {
      assert d[0] == (d + rest)[0] && IsDigit(d[0]);
      assert (d + rest)[1..] == d[1..] + rest;
      DigitRunOf(d[1..], rest);
    }
  }

  lemma TakeNumberSplits(s: string, literal: string)
    ensures TakeNumber(s, literal).Some? ==>
              var (digits, rest) := TakeNumber(s, literal).value;
              digits != "" && AllDigits(digits) && s == digits + (literal + rest)
  {
    var n := DigitRun(s);
    DigitRunIsDigits(s);
    if literal <= s[n..] {
      assert s[n..] == literal + s[n..][|literal|..];
      assert s == s[..n] + s[n..];
    }
  }

  lemma TakeNumberOf(digits: string, literal: string, rest: string)
    requires digits != "" && AllDigits(digits) && literal != "" && !IsDigit(literal[0])
    ensures TakeNumber(digits + (literal + rest), literal) == Some((digits, rest))
  {
    var s := digits + (literal + rest);
    assert (literal + rest)[0] == literal[0];
    DigitRunOf(digits, literal + rest);
    assert s[|digits|..] == literal + rest;
    assert s[..|digits|] == digits;
    assert s[|digits| + |literal|..] == (literal + rest)[|literal|..] == rest;
  }

  lemma RenderThenSplits(separator: char, p: Parts, rest: string)
    ensures RenderThen(separator, p, rest) == RenderBody(separator, p) + rest
  {
    var m := Marker(separator);
    assert p.custom + "" == p.custom;
    Associate(m, p.custom, rest);
    Associate(p.patch, m + p.custom, rest);
    Associate(".", p.patch + (m + p.custom), rest);
    var x := "." + (p.patch + (m + p.custom));
    Associate(p.minor, x, rest);
    Associate(".", p.minor + x, rest);
    Associate(p.major, "." + (p.minor + x), rest);
  }

  /** Whatever is parsed is well formed and is printed as the text it was parsed from. */
  lemma ParseBodyRenders(separator: char, s: string)
    ensures ParseBody(separator, s).Some? ==>
              var (p, rest) := ParseBody(separator, s).value;
              WellFormed(p) && s == RenderBody(separator, p) + rest
  {
    hide TakeNumber, DigitRun;
    if ParseBody(separator, s).Some? {
      var (p, rest) := ParseBody(separator, s).value;
      TakeNumberSplits(s, ".");
      var s1 := TakeNumber(s, ".").value.1;
      TakeNumberSplits(s1, ".");
      var s2 := TakeNumber(s1, ".").value.1;
      TakeNumberSplits(s2, Marker(separator));
      var s3 := TakeNumber(s2, Marker(separator)).value.1;
      assert s3 == p.custom + rest;
      RenderThenSplits(separator, p, rest);
    }
  }

  /** Printing is undone by parsing, whatever text follows. */
  lemma RenderBodyParses(separator: char, p: Parts, rest: string)
    requires WellFormed(p) && !IsDigit(separator)
    ensures ParseBody(separator, RenderBody(separator, p) + rest) == Some((p, rest))
  {
    RenderThenSplits(separator, p, rest);
    var s3 := p.custom + rest;
    var s2 := p.patch + (Marker(separator) + s3);
    var s1 := p.minor + ("." + s2);
    TakeNumberOf(p.major, ".", s1);
    TakeNumberOf(p.minor, ".", s2);
    TakeNumberOf(p.patch, Marker(separator), s3);
    assert s3[..3] == p.custom && s3[3..] == rest;
  }

  lemma ParseRenders(kind: Kind, s: string)
    ensures Parse(kind, s).Some? ==>
              var (p, rest) := Parse(kind, s).value;
              WellFormed(p) && s == Render(kind, p) + rest
  {
    hide ParseBody, RenderBody, WellFormed;
    if Parse(kind, s).Some? {
      if kind == Application {
        ParseBodyRenders('+', s);
      } else {
        var (p, rest) := Parse(kind, s).value;
        ParseBodyRenders(Separator(kind), s[1..]);
        assert s == "v" + s[1..];
        Associate("v", RenderBody(Separator(kind), p), rest);
      }
    }
  }

  lemma RenderParses(kind: Kind, p: Parts, rest: string)
    requires WellFormed(p)
    ensures Parse(kind, Render(kind, p) + rest) == Some((p, rest))
  {
    RenderBodyParses(Separator(kind), p, rest);
    if kind != Application {
      Associate("v", RenderBody(Separator(kind), p), rest);
      var s := "v" + (RenderBody(Separator(kind), p) + rest);
      assert s[1..] == RenderBody(Separator(kind), p) + rest;
    }
  }

  /** A text of one kind is recognised by exactly the parts that print it, and by no other kind. */
  lemma ParseAllIffRendered(kind: Kind, s: string, p: Parts)
    ensures ParseAll(kind, s) == Some(p) <==> WellFormed(p) && s == Render(kind, p)
  {
    ParseRenders(kind, s);
    if WellFormed(p) && s == Render(kind, p) {
      RenderParses(kind, p, "");
      assert s + "" == s;
    }
    if ParseAll(kind, s) == Some(p) {
      assert Render(kind, p) + "" == Render(kind, p);
    }
  }

  /** How the three kinds are written. */
  lemma RenderIs(p: Parts)
    ensures Render(Application, p) == p.major + "." + p.minor + "." + p.patch + "+custom." + p.custom
    ensures Render(GitTag, p) == "v" + p.major + "." + p.minor + "." + p.patch + "+custom." + p.custom
    ensures Render(OciTag, p) == "v" + p.major + "." + p.minor + "." + p.patch + "-custom." + p.custom
  {
    assert Marker('+') == "+custom." && Marker('-') == "-custom.";
  }

  /** No text starts with versions of two kinds. */
  lemma KindsExclude(k1: Kind, k2: Kind, s: string)
    requires Parse(k1, s).Some? && Parse(k2, s).Some?
    ensures k1 == k2
  {
    if k1 != Application && k2 != Application {
      var s1 := TakeNumber(s[1..], ".").value.1;
      var s2 := TakeNumber(s1, ".").value.1;
      var n := DigitRun(s2);
      assert s2[n..][0] == Marker(Separator(k1))[0] == Marker(Separator(k2))[0];
    }
  }

  // ---------------------------------------------------------------- version keys

  function Number(digits: string): nat
    requires AllDigits(digits)
  {
    if digits == "" then 0
    else 10 * Number(digits[..|digits| - 1]) + (digits[|digits| - 1] - '0') as nat
  }

  function KeyOf(p: Parts): Key
    requires WellFormed(p)
  {
    (Number(p.major), Number(p.minor), Number(p.patch), Number(p.custom))
  }

  function VersionKey(tag: string): Option<Key> {
    match ParseAll(GitTag, tag)
    case Some(p) =>
      ParseAllIffRendered(GitTag, tag, p);
      Some(KeyOf(p))
    case None => None
  }

  /** Python's order on tuples of integers. */
  predicate KeyLess(a: Key, b: Key) {
    a.0 < b.0 || (a.0 == b.0 &&
    (a.1 < b.1 || (a.1 == b.1 &&
    (a.2 < b.2 || (a.2 == b.2 && a.3 < b.3)))))
  }

  function PowerOfTen(n: nat): (r: nat)
    ensures r > 0
  {
    if n == 0 then 1 else 10 * PowerOfTen(n - 1)
  }

  lemma NumberSnoc(digits: string, last: char)
    requires AllDigits(digits) && IsDigit(last)
    ensures Number(digits + [last]) == 10 * Number(digits) + (last - '0') as nat
  {
    assert (digits + [last])[..|digits|] == digits;
  }

  lemma TenTimes(x: nat, p: nat)
    ensures 10 * (x * p) == x * (10 * p)
  {
  }

  /** Every digit counts with its place. */
  lemma {:induction false} FirstDigitCounts(c: char, rest: string)
    requires IsDigit(c) && AllDigits(rest)
    ensures Number([c] + rest) == (c - '0') as nat * PowerOfTen(|rest|) + Number(rest)
    ensures Number(rest) < PowerOfTen(|rest|)
  {
    if rest == "" {
      assert [c] + rest == "" + [c];
      NumberSnoc("", c);
    } else {
      var init, last := rest[..|rest| - 1], rest[|rest| - 1];
      assert rest == init + [last] && [c] + rest == ([c] + init) + [last];
      NumberSnoc(init, last);
      NumberSnoc([c] + init, last);
      FirstDigitCounts(c, init);
      TenTimes((c - '0') as nat, PowerOfTen(|init|));
      hide Number;
    }
  }

  /** The digits without leading zeros. */
  function Significant(digits: string): string {
    if digits != "" && digits[0] == '0' then Significant(digits[1..]) else digits
  }

  lemma {:induction false} ZerosDoNotCount(digits: string)
    requires AllDigits(digits)
    ensures AllDigits(Significant(digits)) && Number(Significant(digits)) == Number(digits)
    ensures Significant(digits) != "" ==> Significant(digits)[0] != '0'
  {
    if digits != "" && digits[0] == '0' {
      FirstDigitCounts(digits[0], digits[1..]);
      assert digits == [digits[0]] + digits[1..];
      ZerosDoNotCount(digits[1..]);
    }
  }

  lemma {:induction false} TimesGrows(x: nat, y: nat, p: nat)
    requires x < y
    ensures x * p + p <= y * p
    decreases y
  {
    if x + 1 < y {
      TimesGrows(x, y - 1, p);
    }
    assert y * p == (y - 1) * p + p;
  }

  /** The greater place decides, whatever stands in the lower ones. */
  lemma PlaceDecides(x: nat, y: nat, p: nat, u: nat, v: nat)
    requires u < p && v < p
    ensures x * p + u < y * p + v <==> x < y || (x == y && u < v)
    ensures x * p + u == y * p + v <==> x == y && u == v
  {
    if x < y {
      TimesGrows(x, y, p);
    } else if y < x {
      TimesGrows(y, x, p);
    }
  }

  lemma {:induction false} SameLengthOrder(a: string, b: string)
    requires AllDigits(a) && AllDigits(b) && |a| == |b|
    ensures Number(a) < Number(b) <==> Less(a, b)
    ensures Number(a) == Number(b) <==> a == b
  {
    if a != "" {
      hide Number, PowerOfTen;
      var x, y := (a[0] - '0') as nat, (b[0] - '0') as nat;
      assert a == [a[0]] + a[1..] && b == [b[0]] + b[1..];
      FirstDigitCounts(a[0], a[1..]);
      FirstDigitCounts(b[0], b[1..]);
      SameLengthOrder(a[1..], b[1..]);
      PlaceDecides(x, y, PowerOfTen(|a| - 1), Number(a[1..]), Number(b[1..]));
    }
  }

  lemma LongerIsGreater(a: string, b: string)
    requires AllDigits(a) && AllDigits(b) && |a| < |b| && b[0] != '0'
    ensures Number(a) < Number(b)
  {
    hide Number, PowerOfTen;
    assert b == [b[0]] + b[1..];
    FirstDigitCounts(b[0], b[1..]);
    FirstDigitCounts('0', a);
    PowersGrow(|a|, |b| - 1);
    TimesGrows(0, (b[0] - '0') as nat, PowerOfTen(|b| - 1));
  }

  lemma {:induction false} PowersGrow(m: nat, n: nat)
    requires m <= n
    ensures PowerOfTen(m) <= PowerOfTen(n)
  {
    if m < n {
      PowersGrow(m, n - 1);
    }
  }

  /** Digits denote a smaller number, by their text alone: fewer significant ones, or as many and
      earlier in the order of strings. */
  predicate DigitsLess(a: string, b: string) {
    var x, y := Significant(a), Significant(b);
    |x| < |y| || (|x| == |y| && Less(x, y))
  }

  lemma NumberOrder(a: string, b: string)
    requires AllDigits(a) && AllDigits(b)
    ensures Number(a) < Number(b) <==> DigitsLess(a, b)
    ensures Number(a) == Number(b) <==> Significant(a) == Significant(b)
  {
    ZerosDoNotCount(a);
    ZerosDoNotCount(b);
    hide Number;
    var x, y := Significant(a), Significant(b);
    if |x| < |y| {
      LongerIsGreater(x, y);
    } else if |y| < |x| {
      LongerIsGreater(y, x);
    } else {
      SameLengthOrder(x, y);
    }
  }

  /** The order of versions, by their text: the first group that differs as a number decides. */
  predicate TextLess(p: Parts, q: Parts) {
    || DigitsLess(p.major, q.major)
    || (Significant(p.major) == Significant(q.major) &&
        (DigitsLess(p.minor, q.minor) ||
         (Significant(p.minor) == Significant(q.minor) &&
          (DigitsLess(p.patch, q.patch) ||
           (Significant(p.patch) == Significant(q.patch) && DigitsLess(p.custom, q.custom))))))
  }

  /** Of two tags, the one with the greater version as it is written has the greater key. */
  lemma KeyOrderIsTextOrder(p: Parts, q: Parts)
    requires WellFormed(p) && WellFormed(q)
    ensures var a, b := VersionKey(Render(GitTag, p)), VersionKey(Render(GitTag, q));
            a.Some? && b.Some? && (KeyLess(a.value, b.value) <==> TextLess(p, q))
  {
    ParseAllIffRendered(GitTag, Render(GitTag, p), p);
    ParseAllIffRendered(GitTag, Render(GitTag, q), q);
    NumberOrder(p.major, q.major);
    NumberOrder(p.minor, q.minor);
    NumberOrder(p.patch, q.patch);
    NumberOrder(p.custom, q.custom);
    hide Render, ParseAll, Number, DigitsLess, Significant;
  }

  // ---------------------------------------------------------------- finalization branches

  const BRANCH_PREFIX := "release/finalize-"

  datatype NameError = InvalidTag | WrongPrefix | InvalidBranch | NoRoundTrip

  /** The finalizer only accepts overlay numbers 001 to 999. */
  predicate Releasable(p: Parts) {
    WellFormed(p) && p.custom != "000"
  }

  function FinalizableTag(tag: string): Option<Parts> {
    match ParseAll(GitTag, tag)
    case Some(p) => if p.custom != "000" then Some(p) else None
    case None => None
  }

  function ReplaceChar(s: string, from: char, to: char): (r: string)
    ensures |r| == |s|
    ensures forall i :: 0 <= i < |s| ==> r[i] == if s[i] == from then to else s[i]
  {
    seq(|s|, i requires 0 <= i < |s| => if s[i] == from then to else s[i])
  }

  function RemovePrefix(s: string, prefix: string): string {
    if prefix <= s then s[|prefix|..] else s
  }

  function FinalizationBranch(tag: string): Result<string, NameError> {
    if FinalizableTag(tag).None? then Err(InvalidTag)
    else Ok(BRANCH_PREFIX + ReplaceChar(RemovePrefix(tag, "v"), '+', '-'))
  }

  function TagFromBranch(branch: string): Result<string, NameError> {
    if !(BRANCH_PREFIX <= branch) then Err(WrongPrefix) else
    var suffix := RemovePrefix(branch, BRANCH_PREFIX);
    match ParseBody('-', suffix)
    case None => Err(InvalidBranch)
    case Some((p, rest)) =>
      if rest != "" || p.custom == "000" then Err(InvalidBranch) else
      var tag := "v" + RenderBody('+', p);
      if FinalizationBranch(tag) != Ok(branch) then Err(NoRoundTrip) else Ok(tag)
  }

  lemma ReplaceCharConcat(a: string, b: string, from: char, to: char)
    ensures ReplaceChar(a + b, from, to) == ReplaceChar(a, from, to) + ReplaceChar(b, from, to)
  {
  }

  lemma ReplaceCharAbsent(s: string, from: char, to: char)
    requires from !in s
    ensures ReplaceChar(s, from, to) == s
  {
  }

  lemma ReplaceSeparator(p: Parts)
    requires WellFormed(p)
    ensures ReplaceChar(RenderBody('+', p), '+', '-') == RenderBody('-', p)
  {
    var tail := p.custom + "";
    ReplaceCharAbsent(tail, '+', '-');
    ReplaceCharConcat(Marker('+'), tail, '+', '-');
    assert ReplaceChar(Marker('+'), '+', '-') == Marker('-');
    ReplaceCharAbsent(p.patch, '+', '-');
    ReplaceCharConcat(p.patch, Marker('+') + tail, '+', '-');
    var x := p.patch + (Marker('+') + tail);
    ReplaceCharAbsent(".", '+', '-');
    ReplaceCharConcat(".", x, '+', '-');
    ReplaceCharAbsent(p.minor, '+', '-');
    ReplaceCharConcat(p.minor, "." + x, '+', '-');
    ReplaceCharConcat(".", p.minor + ("." + x), '+', '-');
    ReplaceCharAbsent(p.major, '+', '-');
    ReplaceCharConcat(p.major, "." + (p.minor + ("." + x)), '+', '-');
  }

  /** The application version and the OCI tag are derived from the Git tag by text edits. */
  lemma DerivedNames(p: Parts)
    requires WellFormed(p)
    ensures RemovePrefix(Render(GitTag, p), "v") == Render(Application, p)
    ensures ReplaceChar(Render(GitTag, p), '+', '-') == Render(OciTag, p)
    ensures ReplaceChar(RemovePrefix(Render(GitTag, p), "v"), '+', '-') == RenderBody('-', p)
  {
    ReplaceSeparator(p);
    ReplaceCharAbsent("v", '+', '-');
    ReplaceCharConcat("v", RenderBody('+', p), '+', '-');
  }

  /** The branch of a finalizable tag names that tag again; no other tag has a branch. */
  lemma BranchThenTag(tag: string)
    ensures FinalizationBranch(tag).Ok? <==> exists p :: Releasable(p) && tag == Render(GitTag, p)
    ensures FinalizationBranch(tag).Ok? ==> TagFromBranch(FinalizationBranch(tag).value) == Ok(tag)
  {
    hide Parse, ParseBody, RenderThen;
    forall p ensures ParseAll(GitTag, tag) == Some(p) <==> WellFormed(p) && tag == Render(GitTag, p) {
      ParseAllIffRendered(GitTag, tag, p);
    }
    if FinalizableTag(tag).Some? {
      var p := FinalizableTag(tag).value;
      DerivedNames(p);
      var suffix := RenderBody('-', p);
      assert (BRANCH_PREFIX + suffix)[|BRANCH_PREFIX|..] == suffix;
      RenderBodyParses('-', p, "");
      assert suffix + "" == suffix;
    }
  }

  /** A branch is accepted exactly when it is printed from a releasable version, and printing the
      returned tag gives the branch back: the round-trip error is never reported. */
  lemma TagThenBranch(branch: string)
    ensures TagFromBranch(branch) != Err(NoRoundTrip)
    ensures TagFromBranch(branch).Ok? ==> FinalizationBranch(TagFromBranch(branch).value) == Ok(branch)
    ensures TagFromBranch(branch).Ok? <==>
            exists p :: Releasable(p) && branch == BRANCH_PREFIX + RenderBody('-', p)
  {
    hide ParseBody, RenderThen, RenderBody, WellFormed, FinalizationBranch;
    if BRANCH_PREFIX <= branch {
      var suffix := branch[|BRANCH_PREFIX|..];
      ParseBodyRenders('-', suffix);
      assert branch == BRANCH_PREFIX + suffix;
      if ParseBody('-', suffix).Some? {
        var (p, rest) := ParseBody('-', suffix).value;
        if rest == "" && p.custom != "000" {
          assert RenderBody('-', p) + "" == RenderBody('-', p);
          BranchOf(p);
          assert Releasable(p);
        }
      }
    }
    forall p | Releasable(p) && branch == BRANCH_PREFIX + RenderBody('-', p)
      ensures TagFromBranch(branch).Ok?
    {
      BranchOf(p);
      BranchThenTag(Render(GitTag, p));
    }
  }

  lemma BranchOf(p: Parts)
    requires Releasable(p)
    ensures Render(GitTag, p) == "v" + RenderBody('+', p)
    ensures FinalizationBranch(Render(GitTag, p)) == Ok(BRANCH_PREFIX + RenderBody('-', p))
  {
    hide ParseAll, RenderThen, WellFormed;
    ParseAllIffRendered(GitTag, Render(GitTag, p), p);
    DerivedNames(p);
  }

  /** The branch of a tag: the prefix, and the version with a hyphen before the overlay number; the overlay
      number 000 has none. */
  lemma BranchIs(p: Parts)
    requires WellFormed(p)
    ensures FinalizationBranch(Render(GitTag, p)) ==
            if p.custom == "000" then Err(InvalidTag)
            else Ok("release/finalize-" + (p.major + "." + p.minor + "." + p.patch + "-custom." + p.custom))
  {
    hide Render, ParseAll, RenderBody, WellFormed, ReplaceChar, RemovePrefix;
    ParseAllIffRendered(GitTag, Render(GitTag, p), p);
    DerivedNames(p);
    BodyIs(p);
  }

  lemma BodyIs(p: Parts)
    ensures RenderBody('-', p) == p.major + "." + p.minor + "." + p.patch + "-custom." + p.custom
  {
    assert Marker('-') == "-custom.";
  }
}
