/** The character of a numeric escape that is no back-reference. JavaScript reads an
    octal code; the rewriting takes it for a decimal one. */
module OctalEscapes {
  import opened Prelude
  import opened EscapeCodec
  import opened EscapeMeaning
  import opened GroupNumbering

  /** How many digits an octal escape takes: at most three, and at most 255. */
  function OctalLength(digits: Text): (n: nat)
    ensures n <= |digits| && n <= 3
  {
    if digits == [] || !IsOctal(digits[0]) then 0
    else if |digits| == 1 || !IsOctal(digits[1]) then 1
    else if |digits| == 2 || !IsOctal(digits[2]) || digits[0] > 51 then 2
    else 3
  }

  /** The text that an escape with digits stands for where there is no such group,
      by section B.1.4 of ECMA-262: an octal code, or the digit itself, and the
      digits left over. */
  function EscapedText(digits: Text): Text
    requires IsDecimal(digits)
  {
    var n := OctalLength(digits);
    if n == 0 then digits
    else
      [OctalCode(digits[..n])] + digits[n..]
  }

  /** The code of up to three octal digits. */
  function OctalCode(t: Text): (c: CodeUnit)
    requires 0 < |t| <= 3 && forall i :: 0 <= i < |t| ==> IsOctal(t[i])
    ensures c == DigitsValue(t, 8)
  {
    OctalIsSmall(t);
    DigitsAreNumber(t, 8);
    Number(t, 8, 0)
  }

  lemma OctalIsSmall(t: Text)
    requires 0 < |t| <= 3 && forall i :: 0 <= i < |t| ==> IsOctal(t[i])
    ensures 0 <= DigitsValue(t, 8) < 0x10000
  {
    DigitsValueBound(t, 8);
    PowMonotone(8, |t|, 3);
    assert Pow(8, 3) == 512;
  }

  /** The rewriting takes it for a decimal code instead; so the character is kept just
      for a number below eight, of at most three digits. */
  lemma NumberKeepsCharacter(digits: Text)
    requires IsDecimal(digits) && DigitsValue(digits, 10) > 0
    ensures EscapedText(digits) == [DigitsValue(digits, 10) % 0x10000] <==> DigitsValue(digits, 10) < 8 && |digits| <= 3
  {
    hide DigitsValue, OctalLength, IsDecimal, EscapedText, OctalCode;
    if |digits| > 3 {
      ManyAreLeft(digits);
    } else {
      SmallNumber(digits);
      SmallText(digits);
      var v := DigitsValue(digits, 10);
      assert v % 0x10000 == v;
    }
  }

  lemma ManyAreLeft(digits: Text)
    requires IsDecimal(digits) && |digits| > 3
    ensures |EscapedText(digits)| > 1
  {
    hide DigitsValue, OctalLength, IsDecimal;
  }

  lemma SmallText(digits: Text)
    requires IsDecimal(digits) && |digits| <= 3
    ensures OctalLength(digits) == |digits| ==> EscapedText(digits) == [DigitsValue(digits, 8)]
    ensures OctalLength(digits) == 0 ==> EscapedText(digits) == digits
    ensures 0 < OctalLength(digits) < |digits| ==> |EscapedText(digits)| > 1
  {
    hide DigitsValue, OctalLength;
    var n := OctalLength(digits);
    assert n == |digits| ==> digits[..n] == digits && digits[n..] == [];
  }

  lemma HornerOfThree(t: Text, radix: nat)
    requires 0 < |t| <= 3
    ensures DigitsValue(t, radix)
         == if |t| == 1 then DigitValue(t[0])
            else if |t| == 2 then DigitValue(t[0]) * radix + DigitValue(t[1])
            else (DigitValue(t[0]) * radix + DigitValue(t[1])) * radix + DigitValue(t[2])
  {
    if |t| > 1 { HornerOfThree(t[..|t| - 1], radix); } else { assert t[..0] == []; }
  }

  /** Up to three digits, all taken, read the same in both radices just below eight;
      not all are taken of eight or more. */
  lemma SmallNumber(t: Text)
    requires IsDecimal(t) && |t| <= 3
    ensures DigitsValue(t, 10) < 1000
    ensures OctalLength(t) == |t| ==> (DigitsValue(t, 8) == DigitsValue(t, 10) <==> DigitsValue(t, 10) < 8)
    ensures OctalLength(t) < |t| ==> DigitsValue(t, 10) >= 8
    ensures OctalLength(t) == 0 && |t| == 1 ==> DigitsValue(t, 10) == t[0] - 48
  {
    HornerOfThree(t, 8);
    HornerOfThree(t, 10);
  }
}
