/** What Python's `int` accepts on an ASCII string: blanks, a sign, and digits between which single
    underscores may stand. */
module Numerals {
  import opened Text

  const BLANKS := {' ', '\t', '\n', '\U{0B}', '\U{0C}', '\r', '\U{1C}', '\U{1D}', '\U{1E}', '\U{1F}'}
  const DIGITS := "0123456789"

  ghost predicate Blank(s: string) {
    forall i :: 0 <= i < |s| ==> s[i] in BLANKS
  }

  /** A digit, or an underscore between two digits. */
  ghost predicate Fits(s: string, i: int)
    requires 0 <= i < |s|
  {
    s[i] in DIGITS || (s[i] == '_' && 0 < i < |s| - 1 && s[i - 1] in DIGITS && s[i + 1] in DIGITS)
  }

  ghost predicate Numeral(s: string) {
    s != "" && forall i :: 0 <= i < |s| ==> Fits(s, i)
  }

  /** Its value, read from the left; underscores count for nothing. */
  ghost function Value(s: string): nat {
    if s == "" then 0
    else
      var front, last := Value(s[..|s| - 1]), s[|s| - 1];
      if last == '0' then 10 * front
      else if last == '1' then 10 * front + 1
      else if last == '2' then 10 * front + 2
      else if last == '3' then 10 * front + 3
      else if last == '4' then 10 * front + 4
      else if last == '5' then 10 * front + 5
      else if last == '6' then 10 * front + 6
      else if last == '7' then 10 * front + 7
      else if last == '8' then 10 * front + 8
      else if last == '9' then 10 * front + 9
      else front
  }

  lemma DigitsAreDigits(c: char)
    ensures c in DIGITS <==> IsDigit(c)
    ensures c in BLANKS <==> IsSpace(c)
    ensures IsDigit(c) || c in {'+', '-', '_'} ==> !IsSpace(c)
  {
    if IsDigit(c) {
      assert DIGITS[c as int - '0' as int] == c;
    }
    assert '\t' as int == 9 && '\n' as int == 10 && '\r' as int == 13;
  }

  /** The numeral before the last digit, and before the underscore that may precede it. */
  function Front(s: string): string
    requires |s| > 1
  {
    var front := s[..|s| - 1];
    if front[|front| - 1] == '_' then front[..|front| - 1] else front
  }

  lemma FrontIsNumeral(s: string)
    requires |s| > 1 && Numeral(s)
    ensures Numeral(Front(s))
  {
    hide Value;
    DigitsAreDigits('_');
    var rest, n := Front(s), |s|;
    assert Fits(s, n - 1) && Fits(s, n - 2) && Fits(s, 0);
    if s[n - 2] == '_' {
      assert Fits(s, n - 3);
    }
    forall i | 0 <= i < |rest|
      ensures Fits(rest, i)
    {
      assert Fits(s, i) && rest[i] == s[i];
    }
  }

  lemma NumeralGrows(s: string)
    requires |s| > 1 && s[|s| - 1] in DIGITS && Numeral(Front(s))
    ensures Numeral(s)
  {
    hide Value;
    DigitsAreDigits('_');
    var rest := Front(s);
    assert Fits(rest, |rest| - 1) && rest[|rest| - 1] == s[|rest| - 1];
    forall i | 0 <= i < |s|
      ensures Fits(s, i)
    {
      if i < |rest| {
        assert Fits(rest, i) && rest[i] == s[i];
      }
    }
  }

  lemma FrontValue(s: string)
    requires |s| > 1
    ensures Value(s[..|s| - 1]) == Value(Front(s))
  {
  }

  lemma LastDigit(s: string)
    requires s != "" && IsDigit(s[|s| - 1])
    ensures Value(s) == 10 * Value(s[..|s| - 1]) + DigitValue(s[|s| - 1])
  {
  }

  lemma {:induction false} ParsesNumerals(s: string)
    ensures ParseNat(s) == if Numeral(s) then Some(Value(s)) else None
    decreases |s|
  {
    if s != "" {
      var last := s[|s| - 1];
      DigitsAreDigits(last);
      if !IsDigit(last) {
        if Numeral(s) {
          NumeralEnds(s);
        }
      } else if |s| == 1 {
        LastDigit(s);
        assert s[..0] == "" && Fits(s, 0);
      } else {
        ParsesNumerals(Front(s));
        ParseStep(s);
      }
    }
  }

  lemma ParseUnfolds(s: string)
    requires |s| > 1 && IsDigit(s[|s| - 1])
    ensures var high := ParseNat(Front(s));
            ParseNat(s) == if high.None? then None else Some(10 * high.value + DigitValue(s[|s| - 1]))
  {
  }

  lemma ParseStep(s: string)
    requires |s| > 1 && IsDigit(s[|s| - 1])
    requires ParseNat(Front(s)) == if Numeral(Front(s)) then Some(Value(Front(s))) else None
    ensures ParseNat(s) == if Numeral(s) then Some(Value(s)) else None
  {
    hide Numeral, Value, ParseNat, Front;
    DigitsAreDigits(s[|s| - 1]);
    ParseUnfolds(s);
    LastDigit(s);
    FrontValue(s);
    if Numeral(s) {
      FrontIsNumeral(s);
    }
    if Numeral(Front(s)) {
      NumeralGrows(s);
    }
  }

  lemma NumeralEnds(m: string)
    requires Numeral(m)
    ensures m != "" && IsDigit(m[0]) && IsDigit(m[|m| - 1])
  {
    hide Value;
    assert Fits(m, 0) && Fits(m, |m| - 1);
    DigitsAreDigits(m[0]);
    DigitsAreDigits(m[|m| - 1]);
  }

  lemma {:induction false} StripsLeft(l: string, t: string)
    requires Blank(l) && (t == "" || !IsSpace(t[0]))
    ensures StripLeft(l + t) == t
  {
    if l == "" {
      assert l + t == t;
    } else {
      DigitsAreDigits(l[0]);
      assert (l + t)[1..] == l[1..] + t;
      StripsLeft(l[1..], t);
    }
  }

  lemma {:induction false} StripsRight(t: string, r: string)
    requires Blank(r) && (t == "" || !IsSpace(t[|t| - 1]))
    ensures StripRight(t + r) == t
  {
    if r == "" {
      assert t + r == t;
    } else {
      var last := |r| - 1;
      DigitsAreDigits(r[last]);
      assert (t + r)[..|t + r| - 1] == t + r[..last];
      StripsRight(t, r[..last]);
    }
  }

  /** A signed numeral between blanks. */
  ghost predicate Written(s: string, l: string, sign: string, m: string, r: string) {
    s == l + sign + m + r && Blank(l) && Blank(r) && Numeral(m) && sign in {"", "+", "-"}
  }

  /** Every such text is accepted, with its value. */
  lemma AcceptsNumerals(s: string, l: string, sign: string, m: string, r: string)
    requires Written(s, l, sign, m, r)
    ensures ParseInt(s) == Some(if sign == "-" then 0 - Value(m) else Value(m))
  {
    hide Numeral, Value, ParseNat;
    var t := sign + m;
    NumeralEnds(m);
    assert m != "";
    DigitsAreDigits(m[|m| - 1]);
    DigitsAreDigits(t[0]);
    assert t[|t| - 1] == m[|m| - 1];
    assert s == l + (t + r);
    StripsLeft(l, t + r);
    StripsRight(t, r);
    ParsesNumerals(m);
    assert sign != "" ==> t[1..] == m;
    assert sign == "" ==> t == m;
  }

  lemma {:induction false} LeftBlanks(s: string) returns (l: string)
    ensures Blank(l) && s == l + StripLeft(s)
  {
    l := "";
    if s != "" && IsSpace(s[0]) {
      DigitsAreDigits(s[0]);
      var rest := LeftBlanks(s[1..]);
      l := [s[0]] + rest;
    }
  }

  lemma {:induction false} RightBlanks(s: string) returns (r: string)
    ensures Blank(r) && s == StripRight(s) + r
  {
    r := "";
    if s != "" && IsSpace(s[|s| - 1]) {
      DigitsAreDigits(s[|s| - 1]);
      var rest := RightBlanks(s[..|s| - 1]);
      r := rest + [s[|s| - 1]];
      assert s == StripRight(s) + r;
    }
  }

  /** And nothing else is. */
  lemma AcceptsOnlyNumerals(s: string) returns (l: string, sign: string, m: string, r: string)
    requires ParseInt(s).Some?
    ensures Written(s, l, sign, m, r)
  {
    hide Numeral, Value, ParseNat, StripLeft, StripRight, Blank;
    l := LeftBlanks(s);
    r := RightBlanks(StripLeft(s));
    var t := StripRight(StripLeft(s));
    sign := if t[0] == '-' then "-" else if t[0] == '+' then "+" else "";
    m := t[|sign|..];
    ParsesNumerals(m);
    assert t == sign + m;
    assert s == l + (t + r);
  }
}
