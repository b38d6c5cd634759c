/**
 * Small shared vocabulary for the backend model: optional values, Python's
 * truthiness of optional strings, the string operations the backend uses
 * (`in`, `startswith`, `upper`, `rstrip`, `isdigit`, `int`) and the
 * "try each candidate until one opens" walk that both the stream opener and
 * the video-writer set-up perform.
 */
module Util {

  datatype Option<+T> = None | Some(value: T)

  /** Python truthiness of a value that is either None or a string. */
  predicate Truthy(s: Option<string>)
  {
    s.Some? && s.value != ""
  }

  /** Python's `a or b` on optional strings. */
  function Or(a: Option<string>, b: Option<string>): (r: Option<string>)
    ensures Truthy(r) <==> Truthy(a) || Truthy(b)
    ensures Truthy(a) ==> r == a
    ensures !Truthy(a) && Truthy(b) ==> r == b
  {
    if Truthy(a) then a else b
  }

  /** `s.startswith(p)` */
  predicate StartsWith(s: string, p: string)
  {
    |p| <= |s| && s[..|p|] == p
  }

  /** `sub in s` for strings: some window of `s` equals `sub`. */
  predicate Contains(s: string, sub: string)
    decreases |s|
  {
    StartsWith(s, sub) || (|s| > 0 && Contains(s[1..], sub))
  }

  /** ASCII upper-casing of one character. */
  function UpperChar(c: char): char
  {
    if 'a' <= c <= 'z' then (c as int - 32) as char else c
  }

  /** `s.upper()` restricted to ASCII letters. */
  function Upper(s: string): (r: string)
    ensures |r| == |s|
    ensures forall i :: 0 <= i < |s| ==> r[i] == UpperChar(s[i])
  {
    seq(|s|, i requires 0 <= i < |s| => UpperChar(s[i]))
  }

  /**
   * `s.rstrip(c)`: the longest prefix of `s` that does not end in `c`,
   * everything cut off being `c`.
   */
  function RStrip(s: string, c: char): (r: string)
    ensures StartsWith(s, r)
    ensures r == [] || r[|r| - 1] != c
    ensures forall i :: |r| <= i < |s| ==> s[i] == c
    decreases |s|
  {
    if |s| > 0 && s[|s| - 1] == c then RStrip(s[..|s| - 1], c) else s
  }

  predicate IsDigit(c: char)
  {
    '0' <= c <= '9'
  }

  /** `s.isdigit()` for ASCII digits: non-empty and all digits. */
  predicate IsDigits(s: string)
  {
    |s| > 0 && forall i :: 0 <= i < |s| ==> IsDigit(s[i])
  }

  /** The decimal value of a string of ASCII digits. */
  function DigitsValue(s: string): (n: nat)
    requires forall i :: 0 <= i < |s| ==> IsDigit(s[i])
    decreases |s|
  {
    if s == [] then 0
    else
      assert IsDigit(s[|s| - 1]);
      DigitsValue(s[..|s| - 1]) * 10 + (s[|s| - 1] as int - '0' as int)
  }

  /** The shortest decimal spelling of a natural number. */
  function ShowNat(n: nat): (s: string)
    ensures IsDigits(s)
    ensures s[0] == '0' ==> n == 0
    decreases n
  {
    if n < 10 then [('0' as int + n) as char]
    else ShowNat(n / 10) + [('0' as int + n % 10) as char]
  }

  /** Reading back the decimal spelling of a number gives the number. */
  lemma {:induction false} DigitsValueOfShowNat(n: nat)
    ensures DigitsValue(ShowNat(n)) == n
    decreases n
  {
    var s := ShowNat(n);
    if n >= 10 {
      DigitsValueOfShowNat(n / 10);
      assert s[..|s| - 1] == ShowNat(n / 10);
    }
  }

  /**
   * Python's `int(s)` on a string: an optional sign followed by ASCII digits.
   * None stands for the ValueError `int` raises.
   */
  function ParseInt(s: string): (r: Option<int>)
    ensures r.Some? ==> |s| > 0 && (IsDigit(s[0]) || s[0] == '-' || s[0] == '+')
    ensures IsDigits(s) ==> r.Some? && r.value >= 0
    ensures |s| > 1 && (s[0] == '-' || s[0] == '+') ==> (r.Some? <==> IsDigits(s[1..]))
    ensures r.Some? && |s| > 0 && s[0] == '-' ==> r.value <= 0
    ensures r.Some? && |s| > 0 && s[0] != '-' ==> r.value >= 0
  {
    if IsDigits(s) then Some(DigitsValue(s) as int)
    else if |s| > 1 && (s[0] == '-' || s[0] == '+') && IsDigits(s[1..]) then
      var magnitude: int := DigitsValue(s[1..]);
      Some(if s[0] == '-' then -magnitude else magnitude)
    else None
  }

  lemma ParseIntOfShowNat(n: nat)
    ensures ParseInt(ShowNat(n)) == Some(n)
  {
    DigitsValueOfShowNat(n);
  }

  /** A sign in front of a digit string negates its value, or keeps it. */
  lemma ParseIntSigned(d: string)
    requires IsDigits(d)
    ensures ParseInt("-" + d) == Some(-ParseInt(d).value)
    ensures ParseInt("+" + d) == ParseInt(d)
  {
    assert ("-" + d)[1..] == d;
    assert ("+" + d)[1..] == d;
    assert !IsDigit(("-" + d)[0]) && !IsDigit(("+" + d)[0]);
  }

  /** A signed number in decimal parses back to it. */
  lemma ParseIntOfSignedShowNat(n: nat)
    ensures ParseInt("-" + ShowNat(n)) == Some(-(n as int))
    ensures ParseInt("+" + ShowNat(n)) == Some(n)
  {
    ParseIntOfShowNat(n);
    ParseIntSigned(ShowNat(n));
  }

  /** A leading zero adds nothing to the value of a digit string. */
  lemma {:induction false} DigitsValueLeadingZero(d: string)
    requires forall i :: 0 <= i < |d| ==> IsDigit(d[i])
    ensures DigitsValue("0" + d) == DigitsValue(d)
    decreases |d|
  {
    if d != [] {
      var init := d[..|d| - 1];
      DigitsValueLeadingZero(init);
      assert ("0" + d)[..|d|] == "0" + init;
    }
  }

  /** Leading zeros do not change what `int()` reads from a digit string. */
  lemma ParseIntLeadingZero(d: string)
    requires IsDigits(d)
    ensures ParseInt("0" + d) == ParseInt(d)
  {
    DigitsValueLeadingZero(d);
    assert IsDigits("0" + d);
  }

  /** The position of the first candidate that `opens` accepts; `|candidates|` when none does. */
  function FirstOpeningIndex<T>(candidates: seq<T>, opens: T -> bool): (k: nat)
    ensures k <= |candidates|
    ensures forall j :: 0 <= j < k ==> !opens(candidates[j])
    ensures k < |candidates| ==> opens(candidates[k])
    decreases |candidates|
  {
    if candidates == [] then 0
    else if opens(candidates[0]) then 0
    else 1 + FirstOpeningIndex(candidates[1..], opens)
  }

  /** The first candidate, in order, that `opens` accepts. */
  function FirstOpening<T>(candidates: seq<T>, opens: T -> bool): (r: Option<T>)
    ensures r.None? <==> forall i :: 0 <= i < |candidates| ==> !opens(candidates[i])
    ensures r.Some? ==> opens(r.value)
  {
    var k := FirstOpeningIndex(candidates, opens);
    if k < |candidates| then Some(candidates[k]) else None
  }

  /** Trying `a` and then `b` finds the first of `a` that opens, or else the first of `b`. */
  lemma {:induction false} FirstOpeningAppend<T>(a: seq<T>, b: seq<T>, opens: T -> bool)
    ensures FirstOpening(a + b, opens) == if FirstOpening(a, opens).Some? then FirstOpening(a, opens) else FirstOpening(b, opens)
    decreases |a|
  {
    if a != [] && !opens(a[0]) {
      FirstOpeningAppend(a[1..], b, opens);
      assert (a + b)[1..] == a[1..] + b;
      assert FirstOpeningIndex(a + b, opens) == 1 + FirstOpeningIndex(a[1..] + b, opens);
    } else if a == [] {
      assert a + b == b;
    }
  }

  /**
   * Tries each candidate in order and stops at the first that opens; the
   * result is that candidate, or None when every attempt failed.
   */
  method OpenFirst<T>(candidates: seq<T>, opens: T -> bool) returns (r: Option<T>)
    ensures r == FirstOpening(candidates, opens)
  {
    var i := 0;
    r := None;
    while i < |candidates|
      invariant 0 <= i <= |candidates|
      invariant forall j :: 0 <= j < i ==> !opens(candidates[j])
    {
      if opens(candidates[i]) {
        r := Some(candidates[i]);
        return;
      }
      i := i + 1;
    }
  }
}
