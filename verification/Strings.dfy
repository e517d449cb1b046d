/** Characters and the trimming of white space. */
module Strings {

  lemma Associate(a: string, b: string, c: string)
    ensures (a + b) + c == a + (b + c)
  {
  }

  predicate IsDigit(c: char) {
    '0' <= c <= '9'
  }

  predicate IsSpace(c: char) {
    c == ' ' || '\t' <= c <= '\r'
  }

  function SpaceRun(s: string): (n: nat)
    ensures n <= |s| && forall i :: 0 <= i < n ==> IsSpace(s[i])
    ensures n < |s| ==> !IsSpace(s[n])
  {
    if s == "" || !IsSpace(s[0]) then 0 else 1 + SpaceRun(s[1..])
  }

  function StripLeft(s: string): string {
    s[SpaceRun(s)..]
  }

  function StripRight(s: string): string {
    if s != "" && IsSpace(s[|s| - 1]) then StripRight(s[..|s| - 1]) else s
  }

  function Strip(s: string): string {
    StripRight(StripLeft(s))
  }

  lemma {:induction false} StripRightIs(s: string, core: string, right: string)
    requires s == core + right && (forall i :: 0 <= i < |right| ==> IsSpace(right[i]))
    requires core != "" && !IsSpace(core[|core| - 1])
    ensures StripRight(s) == core
  {
    if right != "" {
      assert s[|s| - 1] == right[|right| - 1];
      assert s[..|s| - 1] == core + right[..|right| - 1];
      StripRightIs(s[..|s| - 1], core, right[..|right| - 1]);
    } else {
      assert s == core;
    }
  }

  lemma {:induction false} StripRightSplits(s: string) returns (right: string)
    ensures s == StripRight(s) + right && forall i :: 0 <= i < |right| ==> IsSpace(right[i])
  {
    if s != "" && IsSpace(s[|s| - 1]) {
      var r := StripRightSplits(s[..|s| - 1]);
      right := r + [s[|s| - 1]];
      assert s == s[..|s| - 1] + [s[|s| - 1]];
      Associate(StripRight(s), r, [s[|s| - 1]]);
    } else {
      right := "";
    }
  }

  lemma {:induction false} SpaceRunOf(left: string, rest: string)
    requires (forall i :: 0 <= i < |left| ==> IsSpace(left[i])) && rest != "" && !IsSpace(rest[0])
    ensures SpaceRun(left + rest) == |left|
  {
    if left == "" {
      assert left + rest == rest;
    } else {
      assert (left + rest)[1..] == left[1..] + rest;
      SpaceRunOf(left[1..], rest);
    }
  }

  predicate Blank(s: string) {
    forall i :: 0 <= i < |s| ==> IsSpace(s[i])
  }

  /** The text between white space. */
  ghost predicate Padded(s: string, core: string) {
    exists left, right :: Blank(left) && Blank(right) && s == left + core + right
  }

  lemma StripOfPadded(left: string, core: string, right: string)
    requires Blank(left) && Blank(right) && core != "" && !IsSpace(core[0]) && !IsSpace(core[|core| - 1])
    ensures Strip(left + core + right) == core
  {
    var s := left + core + right;
    assert s == left + (core + right);
    SpaceRunOf(left, core + right);
    assert s[|left|..] == core + right;
    StripRightIs(core + right, core, right);
  }

  /** Stripping leaves a text that is not blank exactly when this is what stands between white space. */
  lemma StripIff(s: string, core: string)
    requires core != "" && !IsSpace(core[0]) && !IsSpace(core[|core| - 1])
    ensures Strip(s) == core <==> Padded(s, core)
  {
    if Padded(s, core) {
      var left, right :| Blank(left) && Blank(right) && s == left + core + right;
      StripOfPadded(left, core, right);
    }
    if Strip(s) == core {
      var right := StripRightSplits(StripLeft(s));
      var left := s[..SpaceRun(s)];
      assert s == left + StripLeft(s);
      Associate(left, core, right);
      assert Blank(left) && Blank(right) && s == left + core + right;
    }
  }

  lemma StripHasNoSpaceAround(s: string)
    ensures Strip(s) != "" ==> !IsSpace(Strip(s)[0]) && !IsSpace(Strip(s)[|Strip(s)| - 1])
  {
    var right := StripRightSplits(StripLeft(s));
    StripRightEndsIn(StripLeft(s));
    if Strip(s) != "" {
      assert StripLeft(s)[0] == Strip(s)[0] && SpaceRun(s) < |s|;
    }
  }

  lemma {:induction false} StripRightEndsIn(s: string)
    ensures StripRight(s) != "" ==> !IsSpace(StripRight(s)[|StripRight(s)| - 1])
  {
    if s != "" && IsSpace(s[|s| - 1]) {
      StripRightEndsIn(s[..|s| - 1]);
    }
  }

  // ---------------------------------------------------------------- alphabets

  const DIGITS := "0123456789"
  const LOWER := "abcdefghijklmnopqrstuvwxyz"
  const UPPER := "ABCDEFGHIJKLMNOPQRSTUVWXYZ"
  const HEX := "0123456789abcdef"

  predicate AllIn(s: string, chars: string) {
    forall c <- s :: c in chars
  }

  lemma DigitIs(c: char)
    ensures c in DIGITS <==> '0' <= c <= '9'
  {
    if '0' <= c <= '9' {
      assert DIGITS[c as int - '0' as int] == c;
    }
  }

  lemma LowerIs(c: char)
    ensures c in LOWER <==> 'a' <= c <= 'z'
  {
    if 'a' <= c <= 'z' {
      assert LOWER[c as int - 'a' as int] == c;
    }
  }

  lemma UpperIs(c: char)
    ensures c in UPPER <==> 'A' <= c <= 'Z'
  {
    if 'A' <= c <= 'Z' {
      assert UPPER[c as int - 'A' as int] == c;
    }
  }

  lemma HexIs(c: char)
    ensures c in HEX <==> '0' <= c <= '9' || 'a' <= c <= 'f'
  {
    if '0' <= c <= '9' {
      assert HEX[c as int - '0' as int] == c;
    } else if 'a' <= c <= 'f' {
      assert HEX[10 + (c as int - 'a' as int)] == c;
    }
  }

  lemma Alphabets()
    ensures forall c: char :: c in DIGITS <==> '0' <= c <= '9'
    ensures forall c: char :: c in LOWER <==> 'a' <= c <= 'z'
    ensures forall c: char :: c in UPPER <==> 'A' <= c <= 'Z'
    ensures forall c: char :: c in HEX <==> '0' <= c <= '9' || 'a' <= c <= 'f'
  {
    hide DIGITS, LOWER, UPPER, HEX;
    forall c: char
      ensures c in DIGITS <==> '0' <= c <= '9'
      ensures c in LOWER <==> 'a' <= c <= 'z'
      ensures c in UPPER <==> 'A' <= c <= 'Z'
      ensures c in HEX <==> '0' <= c <= '9' || 'a' <= c <= 'f'
    {
      DigitIs(c);
      LowerIs(c);
      UpperIs(c);
      HexIs(c);
    }
  }
}
