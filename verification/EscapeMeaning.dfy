/** What an escape stands for in JavaScript, by sections 22.2 and B.1.4 of ECMA-262, and
    that the folder's table and its parsing of numbers say the same. */
module EscapeMeaning {
  import opened Prelude
  import opened EscapeCodec

  /** The value of a digit: `0` to `9`, `A` to `F`, `a` to `f`; sixteen for anything else. */
  function Digit(c: CodeUnit): nat {
    if 48 <= c <= 57 then c - 48
    else if 65 <= c <= 70 then 10 + (c - 65)
    else if 97 <= c <= 102 then 10 + (c - 97)
    else 16
  }

  /** The number that the leading digits stand for, read from left to right. */
  function Number(t: Text, radix: nat, acc: nat): nat
    requires radix <= 16
  {
    if t != [] && Digit(t[0]) < radix then Number(t[1..], radix, radix * acc + Digit(t[0])) else acc
  }

  /** The character of a control letter: backspace, tab, newline, vertical tab, form
      feed, return. */
  function ControlCode(c: CodeUnit): Option<CodeUnit> {
    match c
    case 98 => Some(8)
    case 116 => Some(9)
    case 110 => Some(10)
    case 118 => Some(11)
    case 102 => Some(12)
    case 114 => Some(13)
    case _ => None
  }

  /** The code of a token of a class: its unit, or what its escape stands for; none for
      `\u` and `\x` without digits. */
  function TokenCode(tok: Text): Option<int> {
    if tok == [] then None
    else if tok[0] != 92 then Some(tok[0])
    else if |tok| == 1 then None
    else if ControlCode(tok[1]).Some? then Some(ControlCode(tok[1]).value)
    else if Digit(tok[1]) < 8 then Some(Number(tok[1..], 8, 0))
    else if tok[1] == 117 || tok[1] == 120 then
      if |tok| > 2 && Digit(tok[2]) < 16 then Some(Number(tok[2..], 16, 0)) else None
    else Some(tok[1])
  }

  // ---- the folder agrees ----

  /** Horner's rule from some number on. */
  function Behind(acc: int, s: Text, radix: nat): int {
    if s == [] then acc else Behind(acc, s[..|s|-1], radix) * radix + DigitValue(s[|s|-1])
  }

  lemma {:induction false} BehindNothing(s: Text, radix: nat)
    ensures Behind(0, s, radix) == DigitsValue(s, radix)
  {
    if s != [] { BehindNothing(s[..|s|-1], radix); }
  }

  lemma {:induction false} BehindFirst(acc: int, s: Text, radix: nat)
    requires s != []
    ensures Behind(acc, s, radix) == Behind(acc * radix + DigitValue(s[0]), s[1..], radix)
  {
    if |s| == 1 {
      assert s[..0] == [] && s[1..] == [];
    } else {
      var front := s[..|s|-1];
      BehindFirst(acc, front, radix);
      assert front[1..] == s[1..][..|s|-2] && s[1..][|s|-2] == s[|s|-1] && front[0] == s[0];
    }
  }

  lemma DigitsAgree(c: CodeUnit, radix: nat)
    requires radix <= 16
    ensures Digit(c) < radix <==> 0 <= DigitValue(c) < radix
    ensures Digit(c) < radix ==> Digit(c) == DigitValue(c)
  {}

  lemma {:induction false} NumbersAgree(t: Text, radix: nat, acc: nat)
    requires radix <= 16
    ensures Number(t, radix, acc) == Behind(acc, t[..DigitRun(t, radix)], radix)
  {
    hide DigitValue, Digit;
    var k := DigitRun(t, radix);
    if t != [] {
      DigitsAgree(t[0], radix);
      if k > 0 {
        NumbersAgree(t[1..], radix, radix * acc + Digit(t[0]));
        BehindFirst(acc, t[..k], radix);
        assert t[..k][1..] == t[1..][..k-1] && t[..k][0] == t[0];
        assert acc * radix == radix * acc;
      }
    }
  }

  /** Reading digits from the left gives the number that `parseInt` gives. */
  lemma ParsedIsNumber(t: Text, radix: nat)
    requires radix <= 16
    ensures ParseInt(t, radix) == if t != [] && Digit(t[0]) < radix then Some(Number(t, radix, 0)) else None
  {
    hide DigitValue, Digit;
    NumbersAgree(t, radix, 0);
    BehindNothing(t[..DigitRun(t, radix)], radix);
    if t != [] { DigitsAgree(t[0], radix); }
  }

  /** The number of a text of digits. */
  lemma DigitsAreNumber(t: Text, radix: nat)
    requires radix <= 16 && forall i :: 0 <= i < |t| ==> 0 <= DigitValue(t[i]) < radix
    ensures Number(t, radix, 0) == DigitsValue(t, radix)
  {
    NumbersAgree(t, radix, 0);
    AllRun(t, radix);
    assert t[..|t|] == t;
    BehindNothing(t, radix);
  }

  lemma {:induction false} AllRun(t: Text, radix: nat)
    requires forall i :: 0 <= i < |t| ==> 0 <= DigitValue(t[i]) < radix
    ensures DigitRun(t, radix) == |t|
  {
    hide DigitValue;
    if t != [] {
      assert forall i :: 0 <= i < |t| - 1 ==> t[1..][i] == t[i + 1];
      AllRun(t[1..], radix);
    }
  }

  lemma ControlsAgree(c: CodeUnit)
    ensures ControlEscape(c).Some? <==> ControlCode(c).Some?
    ensures ControlCode(c).Some? ==> ControlEscape(c).value == ControlCode(c).value
  {}

  /** The folder decodes every token of a class to the code it stands for. */
  lemma DecodedIsMeant(tok: Text)
    ensures DecodeEscape(tok) == TokenCode(tok)
  {
    hide ParseInt, Number;
    if |tok| > 1 && tok[0] == BACKSLASH {
      ControlsAgree(tok[1]);
      ParsedIsNumber(tok[1..], 8);
      ParsedIsNumber(tok[2..], 16);
    }
  }
}
