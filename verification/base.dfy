/** Octets, an option type, and the decimal and hexadecimal digit strings
    that the printf formats "%u", "%03u" and the nibble table produce. */
module Base {

  /** One octet of wire data (a C `uint8_t`). */
  type byte = x: int | 0 <= x < 256

  datatype Option<T> = None | Some(value: T)

  predicate IsDigit(c: char) {
    '0' <= c <= '9'
  }

  predicate AllDigits(s: string) {
    forall i :: 0 <= i < |s| ==> IsDigit(s[i])
  }

  /** The ASCII character of a decimal digit. */
  function Digit(d: int): (c: char)
    requires 0 <= d < 10
    ensures IsDigit(c)
  {
    ('0' as int + d) as char
  }

  function DigitValue(c: char): (d: int)
    requires IsDigit(c)
    ensures 0 <= d < 10
  {
    c as int - '0' as int
  }

  /** The number a string of decimal digits denotes. */
  function DecimalValue(s: string): nat
    requires AllDigits(s)
  {
    if |s| == 0 then 0 else 10 * DecimalValue(s[..|s| - 1]) + DigitValue(s[|s| - 1])
  }

  /** printf "%u": the decimal digits of n, without leading zeros. */
  function Decimal(n: nat): (s: string)
    ensures 1 <= |s| && AllDigits(s)
    ensures |s| > 1 ==> s[0] != '0'
    ensures n < 10 ==> |s| == 1
    ensures n < 100 ==> |s| <= 2
    ensures n < 1000 ==> |s| <= 3
  {
    if n < 10 then [Digit(n)] else Decimal(n / 10) + [Digit(n % 10)]
  }

  lemma {:induction false} DecimalRoundTrip(n: nat)
    ensures DecimalValue(Decimal(n)) == n
  {
    if n >= 10 {
      var s := Decimal(n);
      assert s[..|s| - 1] == Decimal(n / 10);
      DecimalRoundTrip(n / 10);
    }
  }

  /** printf "%03u" of an octet: exactly three digits, zero padded. */
  function Decimal3(b: byte): (s: string)
    ensures |s| == 3 && AllDigits(s)
    ensures DecimalValue(s) == b
  {
    var s := [Digit(b / 100), Digit(b / 10 % 10), Digit(b % 10)];
    assert s[..2][..1][..0] == [];
    assert DecimalValue(s[..2][..1]) == b / 100;
    assert DecimalValue(s[..2]) == 10 * (b / 100) + b / 10 % 10;
    assert b / 10 == 10 * (b / 100) + b / 10 % 10;
    s
  }

  const HexDigits: string := "0123456789abcdef"

  /** The lower-case hexadecimal digit of a nibble. */
  function Hex(v: int): (c: char)
    requires 0 <= v < 16
    ensures HexValue(c) == Some(v)
  {
    HexDigits[v]
  }

  /** The nibble a lower-case hexadecimal digit stands for. */
  function HexValue(c: char): (r: Option<int>)
    ensures r.Some? ==> 0 <= r.value < 16
  {
    if '0' <= c <= '9' then Some(c as int - '0' as int)
    else if 'a' <= c <= 'f' then Some(c as int - 'a' as int + 10)
    else None
  }

  /** The digit table spelled out: '0'..'9' then 'a'..'f'. */
  lemma HexTable(v: int)
    requires 0 <= v < 16
    ensures Hex(v) == if v < 10 then ('0' as int + v) as char else ('a' as int + v - 10) as char
  {
    if v < 8 {
      if v < 4 {
        if v < 2 { assert v == 0 || v == 1; } else { assert v == 2 || v == 3; }
      } else {
        if v < 6 { assert v == 4 || v == 5; } else { assert v == 6 || v == 7; }
      }
    } else {
      if v < 12 {
        if v < 10 { assert v == 8 || v == 9; } else { assert v == 10 || v == 11; }
      } else {
        if v < 14 { assert v == 12 || v == 13; } else { assert v == 14 || v == 15; }
      }
    }
  }

  /** Reading a nibble's digit gives the nibble back, and the only digit that
      reads as a nibble is that nibble's digit. */
  lemma HexRoundTrip(v: int, c: char)
    requires 0 <= v < 16
    ensures HexValue(Hex(v)) == Some(v)
    ensures HexValue(c) == Some(v) ==> c == Hex(v)
  {
    HexTable(v);
  }
}
