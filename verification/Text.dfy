/** Text primitives of the Python code: truth-tested nullable columns, ASCII case
    mapping, and the decimal `str`/`int` conversions of the `sequence` column. */
module Text {

  datatype Option<+T> = None | Some(value: T)

  /** Python's `column or default` on a nullable text column: null and "" give the default. */
  function OrElse(column: Option<string>, default: string): string {
    if column.None? || column.value == "" then default else column.value
  }

  // ---------------------------------------------------------------- case mapping (ASCII)

  function LowerChar(c: char): char {
    if 'A' <= c <= 'Z' then ((c as int) + 32) as char else c
  }

  function UpperChar(c: char): char {
    if 'a' <= c <= 'z' then ((c as int) - 32) as char else c
  }

  function ToLower(s: string): (r: string)
    ensures |r| == |s|
    ensures forall i :: 0 <= i < |s| ==> r[i] == LowerChar(s[i])
  {
    seq(|s|, i requires 0 <= i < |s| => LowerChar(s[i]))
  }

  function ToUpper(s: string): (r: string)
    ensures |r| == |s|
    ensures forall i :: 0 <= i < |s| ==> r[i] == UpperChar(s[i])
  {
    seq(|s|, i requires 0 <= i < |s| => UpperChar(s[i]))
  }

  const LOWER := "abcdefghijklmnopqrstuvwxyz"
  const UPPER := "ABCDEFGHIJKLMNOPQRSTUVWXYZ"

  /** The letters are mapped to each other, and everything else to itself. */
  lemma LettersAreMapped(i: nat, c: char)
    requires i < 26
    ensures UpperChar(LOWER[i]) == UPPER[i] && LowerChar(UPPER[i]) == LOWER[i]
    ensures c !in LOWER ==> UpperChar(c) == c
    ensures c !in UPPER ==> LowerChar(c) == c
  {
    assert forall j :: 0 <= j < 26 ==> LOWER[j] == ('a' as int + j) as char && UPPER[j] == ('A' as int + j) as char;
    if 'a' <= c <= 'z' {
      assert LOWER[c as int - 'a' as int] == c;
    }
    if 'A' <= c <= 'Z' {
      assert UPPER[c as int - 'A' as int] == c;
    }
  }

  /** Upper-casing is idempotent and invisible to a later lower-casing. */
  lemma UpperIsNormal(s: string)
    ensures ToUpper(ToUpper(s)) == ToUpper(s)
    ensures ToLower(ToUpper(s)) == ToLower(s)
    ensures ToUpper(s) == "" <==> s == ""
  {
    assert forall i :: 0 <= i < |s| ==> ToLower(ToUpper(s))[i] == ToLower(s)[i];
  }

  // ---------------------------------------------------------------- decimal integers

  function DigitChar(d: nat): char
    requires d < 10
  {
    ('0' as int + d) as char
  }

  predicate IsDigit(c: char) { '0' <= c <= '9' }

  function DigitValue(c: char): nat
    requires IsDigit(c)
  {
    c as int - '0' as int
  }

  function ShowNat(n: nat): string {
    if n < 10 then [DigitChar(n)] else ShowNat(n / 10) + [DigitChar(n % 10)]
  }

  /** Python's `str` of an integer. */
  function Show(n: int): string {
    if n < 0 then "-" + ShowNat(-n) else ShowNat(n)
  }

  /** digit (["_"] digit)*, the digit part that Python's `int` accepts. */
  function ParseNat(s: string): Option<nat>
    decreases |s|
  {
    if s == "" || !IsDigit(s[|s| - 1]) then None
    else if |s| == 1 then Some(DigitValue(s[0]))
    else
      var front := s[..|s| - 1];
      var high := ParseNat(if front[|front| - 1] == '_' then front[..|front| - 1] else front);
      if high.None? then None else Some(10 * high.value + DigitValue(s[|s| - 1]))
  }

  predicate IsSpace(c: char) {
    c == ' ' || '\t' <= c <= '\r' || 28 as char <= c <= 31 as char
  }

  function StripLeft(s: string): string {
    if s != "" && IsSpace(s[0]) then StripLeft(s[1..]) else s
  }

  function StripRight(s: string): string {
    if s != "" && IsSpace(s[|s| - 1]) then StripRight(s[..|s| - 1]) else s
  }

  /** Python's `int` on an ASCII string; None where it raises ValueError. */
  function ParseInt(s: string): Option<int> {
    var t := StripRight(StripLeft(s));
    if t == "" then None
    else if t[0] == '-' then
      var m := ParseNat(t[1..]);
      if m.None? then None else Some(0 - m.value)
    else
      ParseNat(if t[0] == '+' then t[1..] else t)
  }

  lemma {:induction false} ShowNatShape(n: nat)
    ensures ShowNat(n) != "" && IsDigit(ShowNat(n)[0]) && IsDigit(ShowNat(n)[|ShowNat(n)| - 1])
    ensures ParseNat(ShowNat(n)) == Some(n)
  {
    if n >= 10 {
      ShowNatShape(n / 10);
      var s := ShowNat(n);
      assert s[..|s| - 1] == ShowNat(n / 10);
    }
  }

  /** The `sequence` column survives the print/parse cycle, negative values included. */
  lemma ParseShow(n: int)
    ensures ParseInt(Show(n)) == Some(n)
  {
    var m: nat := if n < 0 then -n else n;
    ShowNatShape(m);
    var s := Show(n);
    assert StripRight(StripLeft(s)) == s;
    if n < 0 {
      assert s[1..] == ShowNat(m);
    }
  }
}
