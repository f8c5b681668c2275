/** Numbers as text: decimal printing, and the formatted extraction of C++ input streams. */
module Text {
  import opened Common

  predicate IsDigit(c: char) { '0' <= c <= '9' }

  predicate AllDigits(s: string) { forall c <- s :: IsDigit(c) }

  /** The white space that formatted input skips. */
  predicate IsSpace(c: char) {
    c == ' ' || c == '\t' || c == '\n' || c == '\r' || c == '\U{0B}' || c == '\U{0C}'
  }

  function DigitChar(d: nat): char
    requires d < 10
  {
    '0' + d as char
  }

  function DigitValue(c: char): nat
    requires IsDigit(c)
  {
    c as int - '0' as int
  }

  /** The canonical decimal text of a natural number. */
  function Decimal(n: nat): (text: string)
    ensures text != [] && AllDigits(text)
  {
    if n < 10 then [DigitChar(n)] else Decimal(n / 10) + [DigitChar(n % 10)]
  }

  function DecimalInt(n: int): string {
    if n < 0 then "-" + Decimal(-n) else Decimal(n)
  }

  /** The number a string of digits denotes, leading zeros allowed. */
  function Value(digits: string): nat
    requires AllDigits(digits)
  {
    if digits == [] then 0
    else Value(digits[..|digits| - 1]) * 10 + DigitValue(digits[|digits| - 1])
  }

  lemma {:induction false} ValueOfDecimal(n: nat)
    ensures Value(Decimal(n)) == n
  {
    if n >= 10 {
      ValueOfDecimal(n / 10);
      assert Decimal(n)[..|Decimal(n)| - 1] == Decimal(n / 10);
    } else {
      assert Value([]) == 0;
      assert Decimal(n)[..0] == [];
    }
  }

  /** Only digits, and no zero in front of other digits. */
  predicate CanonicalDigits(text: string) {
    text != "" && AllDigits(text) && (text[0] == '0' ==> |text| == 1)
  }

  lemma {:induction false} DecimalIsCanonical(n: nat)
    ensures CanonicalDigits(Decimal(n)) && (Decimal(n)[0] == '0' <==> n == 0)
  {
    if n >= 10 {
      DecimalIsCanonical(n / 10);
    }
  }

  /** Such a text is the canonical text of its number. */
  lemma {:induction false} CanonicalIsDecimal(text: string)
    requires CanonicalDigits(text)
    ensures Decimal(Value(text)) == text
  {
    var front, last := text[..|text| - 1], text[|text| - 1];
    var d := DigitValue(last);
    assert text == front + [last] && DigitChar(d) == last;
    assert Value(text) == Value(front) * 10 + d;
    if front == [] {
      assert Value(front) == 0;
    } else {
      assert front[0] == text[0];
      CanonicalIsDecimal(front);
      DecimalIsCanonical(Value(front));
      assert (Value(front) * 10 + d) / 10 == Value(front);
    }
  }

  function SkipSpaces(text: string): string {
    if text != [] && IsSpace(text[0]) then SkipSpaces(text[1..]) else text
  }

  /** The longest prefix of digits. */
  function DigitRun(text: string): (digits: string)
    ensures AllDigits(digits)
  {
    if text != [] && IsDigit(text[0]) then [text[0]] + DigitRun(text[1..]) else []
  }

  lemma {:induction false} DigitRunOf(digits: string, rest: string)
    requires AllDigits(digits) && (rest != [] ==> !IsDigit(rest[0]))
    ensures DigitRun(digits + rest) == digits
  {
    if digits == [] {
      assert digits + rest == rest;
    } else {
      DigitRunOf(digits[1..], rest);
      assert (digits + rest)[1..] == digits[1..] + rest;
    }
  }

  /** Sign and digits at the front of a text, after white space. */
  datatype Number = Number(negative: bool, digits: string, rest: string)

  function ReadNumber(text: string): (n: Number)
    ensures AllDigits(n.digits)
  {
    var t := SkipSpaces(text);
    var signed := t != [] && (t[0] == '-' || t[0] == '+');
    var unsigned := if signed then t[1..] else t;
    var digits := DigitRun(unsigned);
    DigitRunPrefix(unsigned);
    Number(signed && t[0] == '-', digits, unsigned[|digits|..])
  }

  lemma {:induction false} DigitRunPrefix(text: string)
    ensures |DigitRun(text)| <= |text|
  {
    if text != [] {
      DigitRunPrefix(text[1..]);
    }
  }

  /** Extraction of a signed integer with the given bounds: no digits give 0, overflow gives the bound. */
  function ExtractInt(text: string, min: int, max: int): (value: int)
    requires min <= 0 <= max
    ensures min <= value <= max
  {
    var n := ReadNumber(text);
    var magnitude: int := Value(n.digits);
    var v := if n.negative then -magnitude else magnitude;
    if v < min then min else if v > max then max else v
  }

  const INT_MIN := -0x8000_0000
  const INT_MAX := 0x7fff_ffff
  const LONG_MIN := -0x8000_0000_0000_0000
  const LONG_MAX := 0x7fff_ffff_ffff_ffff

  lemma {:induction false} ReadPrinted(n: int, rest: string)
    requires rest != [] ==> !IsDigit(rest[0])
    ensures ReadNumber(DecimalInt(n) + rest).digits == Decimal(if n < 0 then -n else n)
    ensures ReadNumber(DecimalInt(n) + rest).negative == (n < 0)
    ensures ReadNumber(DecimalInt(n) + rest).rest == rest
  {
    var magnitude := if n < 0 then -n else n;
    var text := DecimalInt(n) + rest;
    assert IsDigit(Decimal(magnitude)[0]);
    assert SkipSpaces(text) == text;
    DigitRunOf(Decimal(magnitude), rest);
    if n < 0 {
      assert text[1..] == Decimal(magnitude) + rest;
    }
  }

  /** Extraction undoes printing for every value in range. */
  lemma {:induction false} ExtractPrinted(n: int, rest: string, min: int, max: int)
    requires min <= 0 <= max && min <= n <= max
    requires rest != [] ==> !IsDigit(rest[0])
    ensures ExtractInt(DecimalInt(n) + rest, min, max) == n
  {
    ReadPrinted(n, rest);
    ValueOfDecimal(if n < 0 then -n else n);
  }

  /** The whole text as an unsigned 32-bit number: white space and a sign may precede the digits, nothing may
      follow them, and a minus sign negates modulo 2^32. */
  function StringToUint32(text: string): Option<uint32> {
    var n := ReadNumber(text);
    if n.digits == [] || n.rest != [] || Value(n.digits) > 0xffff_ffff then None
    else if n.negative then Some((0x1_0000_0000 - Value(n.digits)) % 0x1_0000_0000)
    else Some(Value(n.digits))
  }

  lemma {:induction false} CanonicalUint32(n: uint32)
    ensures StringToUint32(Decimal(n)) == Some(n)
  {
    ReadPrinted(n, []);
    assert Decimal(n) + [] == Decimal(n);
    ValueOfDecimal(n);
  }

  /** Among the texts that are such a number, the canonical one is the one without sign, space or leading zero. */
  lemma {:induction false} CanonicalUint32Syntax(text: string)
    requires StringToUint32(text).Some?
    ensures text == Decimal(StringToUint32(text).value) <==> CanonicalDigits(text)
  {
    DecimalIsCanonical(StringToUint32(text).value);
    if CanonicalDigits(text) {
      DigitRunOf(text, []);
      assert text + [] == text && SkipSpaces(text) == text;
      CanonicalIsDecimal(text);
    }
  }

  // ---------------------------------------------------------------- white space of lines and elements

  predicate IsLineSpace(c: char) { c == '\r' || c == '\n' || c == ' ' || c == '\t' }

  function TrimRight(text: string): string {
    if text != [] && IsLineSpace(text[|text| - 1]) then TrimRight(text[..|text| - 1]) else text
  }

  // ---------------------------------------------------------------- splitting

  /** Where the delimiter first occurs, or the end. */
  function IndexOf(text: string, delimiter: char): (i: nat)
    ensures i <= |text| && (i < |text| ==> text[i] == delimiter)
    ensures delimiter !in text[..i]
  {
    if text == [] || text[0] == delimiter then 0
    else
      var i := 1 + IndexOf(text[1..], delimiter);
      assert text[..i] == [text[0]] + text[1..][..i - 1];
      i
  }

  lemma {:induction false} IndexOfFirst(a: string, delimiter: char, rest: string)
    requires delimiter !in a
    ensures IndexOf(a + [delimiter] + rest, delimiter) == |a|
    ensures IndexOf(a, delimiter) == |a|
  {
    if a != [] {
      IndexOfFirst(a[1..], delimiter, rest);
      assert (a + [delimiter] + rest)[1..] == a[1..] + [delimiter] + rest;
    }
  }

  /** The pieces that repeated getline calls return: what follows the last delimiter is a piece unless it
      is empty. */
  function Pieces(text: string, delimiter: char): seq<string> {
    if text == [] then []
    else
      var i := IndexOf(text, delimiter);
      if i == |text| then [text] else [text[..i]] + Pieces(text[i + 1..], delimiter)
  }

  lemma {:induction false} PiecesCons(a: string, delimiter: char, rest: string)
    requires delimiter !in a
    ensures Pieces(a + [delimiter] + rest, delimiter) == [a] + Pieces(rest, delimiter)
  {
    IndexOfFirst(a, delimiter, rest);
    var text := a + [delimiter] + rest;
    assert text[..|a|] == a && text[|a| + 1..] == rest;
  }

  lemma {:induction false} PiecesSingle(a: string, delimiter: char)
    requires delimiter !in a
    ensures Pieces(a, delimiter) == if a == [] then [] else [a]
  {
    IndexOfFirst(a, delimiter, []);
  }

  lemma {:induction false} PiecesFree(text: string, delimiter: char)
    ensures forall piece <- Pieces(text, delimiter) :: delimiter !in piece && forall c <- piece :: c in text
  {
    if text != [] {
      var i := IndexOf(text, delimiter);
      if i < |text| {
        PiecesFree(text[i + 1..], delimiter);
      } else {
        assert text[..i] == text;
      }
    }
  }
}
