/** The escape codec of the regex combiner: reading one token of a character class,
    and printing one code unit so that it can stand in a class. */
module EscapeCodec {
  import opened Prelude

  const HYPHEN: CodeUnit := 45
  const CLOSE_BRACKET: CodeUnit := 93

  predicate IsOctal(c: int) { 48 <= c <= 55 }

  predicate IsHex(c: int) { 48 <= c <= 57 || 65 <= c <= 70 || 97 <= c <= 102 }

  /** The value of a digit in radix up to sixteen, or -1. */
  function DigitValue(c: int): int {
    if 48 <= c <= 57 then c - 48
    else if 65 <= c <= 70 then c - 55
    else if 97 <= c <= 102 then c - 87
    else -1
  }

  function HexDigit(d: nat): CodeUnit
    requires d < 16
  {
    if d < 10 then 48 + d else 87 + d
  }

  /** How many leading units of `s` are digits in the radix. */
  function DigitRun(s: Text, radix: nat): (k: nat)
    ensures k <= |s|
  {
    if s != [] && 0 <= DigitValue(s[0]) < radix then 1 + DigitRun(s[1..], radix) else 0
  }

  function DigitsValue(s: Text, radix: nat): int {
    if s == [] then 0 else DigitsValue(s[..|s|-1], radix) * radix + DigitValue(s[|s|-1])
  }

  /** `parseInt(s, radix)` on a text of digits: the value of the longest prefix
      of digits, and `None` for the NaN of a text that starts with no digit. */
  function ParseInt(s: Text, radix: nat): Option<int> {
    var k := DigitRun(s, radix);
    if k == 0 then None else Some(DigitsValue(s[..k], radix))
  }

  /** The table `{b:8,t:9,n:10,v:11,f:12,r:13}`. */
  function ControlEscape(c: CodeUnit): Option<int> {
    if c == 98 then Some(8)
    else if c == 116 then Some(9)
    else if c == 110 then Some(10)
    else if c == 118 then Some(11)
    else if c == 102 then Some(12)
    else if c == 114 then Some(13)
    else None
  }

  /** The code a class token stands for; `None` where the source computes NaN. */
  function DecodeEscape(e: Text): Option<int> {
    if e == [] then None
    else if e[0] != BACKSLASH then Some(e[0])
    else if |e| == 1 then None
    else if ControlEscape(e[1]).Some? then ControlEscape(e[1])
    else if 48 <= e[1] <= 55 then ParseInt(e[1..], 8)
    else if e[1] == 117 || e[1] == 120 then ParseInt(e[2..], 16)
    else Some(e[1])
  }

  /** `e.toString(16)` for the values the encoder prints in hexadecimal. */
  function HexText(e: nat): Text
    requires e < 32
  {
    if e < 16 then [HexDigit(e)] else [HexDigit(e / 16), HexDigit(e % 16)]
  }

  predicate IsClassSyntax(c: CodeUnit) {
    c == BACKSLASH || c == HYPHEN || c == CLOSE_BRACKET || c == CARET
  }

  /** Prints a code; like `String.fromCharCode` it keeps the low sixteen bits. */
  function EncodeEscape(e: nat): Text {
    if e < 32 then (if e < 16 then [BACKSLASH, 120, 48] else [BACKSLASH, 120]) + HexText(e)
    else
      var c: CodeUnit := e % 0x10000;
      if IsClassSyntax(c) then [BACKSLASH, c] else [c]
  }

  /** Two hexadecimal digits read back as the number they print. */
  lemma HexPair(hi: nat, lo: nat)
    requires hi < 16 && lo < 16
    ensures ParseInt([HexDigit(hi), HexDigit(lo)], 16) == Some(16 * hi + lo)
  {
    var s: Text := [HexDigit(hi), HexDigit(lo)];
    assert s[1..] == [HexDigit(lo)];
    assert s[1..][1..] == [];
    assert DigitRun(s[1..], 16) == 1;
    assert s[..2] == s && s[..1] == [HexDigit(hi)] && s[..1][..0] == [];
    assert DigitsValue(s[..1], 16) == hi;
    assert DigitsValue(s, 16) == DigitsValue(s[..1], 16) * 16 + lo;
  }

  /** Decoding undoes encoding, for every code unit. */
  lemma DecodeEncode(c: CodeUnit)
    ensures DecodeEscape(EncodeEscape(c)) == Some(c)
  {
    if c < 32 {
      var hi, lo := c / 16, c % 16;
      var e := EncodeEscape(c);
      assert e == [BACKSLASH, 120, HexDigit(hi), HexDigit(lo)];
      assert e[2..] == [HexDigit(hi), HexDigit(lo)];
      HexPair(hi, lo);
    }
  }

  function Pow(b: nat, n: nat): (p: nat)
    ensures b > 0 ==> p > 0
  {
    if n == 0 then 1 else Pow(b, n - 1) * b
  }

  lemma {:induction false} DigitRunIsDigits(s: Text, radix: nat)
    ensures forall i :: 0 <= i < DigitRun(s, radix) ==> 0 <= DigitValue(s[i]) < radix
  {
    if s != [] {
      DigitRunIsDigits(s[1..], radix);
      forall i | 0 <= i < DigitRun(s, radix) ensures 0 <= DigitValue(s[i]) < radix {
        assert i > 0 ==> s[i] == s[1..][i-1];
      }
    }
  }

  lemma HornerBound(v: nat, d: nat, p: nat, radix: nat)
    requires v < p && d < radix
    ensures 0 <= v * radix + d < p * radix
  {
    assert p * radix == (p - v - 1) * radix + v * radix + radix;
  }

  lemma {:induction false} DigitsValueBound(s: Text, radix: nat)
    requires forall i :: 0 <= i < |s| ==> 0 <= DigitValue(s[i]) < radix
    ensures 0 <= DigitsValue(s, radix) < Pow(radix, |s|)
  {
    if s != [] {
      var v, d := DigitsValue(s[..|s|-1], radix), DigitValue(s[|s|-1]);
      DigitsValueBound(s[..|s|-1], radix);
      HornerBound(v, d, Pow(radix, |s| - 1), radix);
    }
  }

  lemma PowMonotone(b: nat, m: nat, n: nat)
    requires b > 0 && m <= n
    ensures Pow(b, m) <= Pow(b, n)
    decreases n - m
  {
    if m < n {
      PowMonotone(b, m, n - 1);
      assert Pow(b, n - 1) * 1 <= Pow(b, n - 1) * b;
    }
  }

  /** At most four hexadecimal or three octal digits fit in a code unit. */
  lemma ParseIntBound(s: Text, radix: nat)
    requires (radix == 16 && |s| <= 4) || (radix == 8 && |s| <= 3)
    ensures ParseInt(s, radix).Some? ==> 0 <= ParseInt(s, radix).value < 0x10000
  {
    var k := DigitRun(s, radix);
    DigitRunIsDigits(s, radix);
    DigitsValueBound(s[..k], radix);
    PowMonotone(radix, k, if radix == 16 then 4 else 3);
    assert Pow(16, 4) == 0x10000 && Pow(8, 3) == 512;
  }
}
