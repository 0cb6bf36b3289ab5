/**
 * The two renderings the account derivation applies to numbers and bytes:
 * the decimal text of a non-negative integer (a JavaScript template
 * substitution `${index}`) and Node's `Buffer.toString("hex")`.
 */
module Encoding {
  newtype byte = x: int | 0 <= x < 256

  const DecimalDigits: string := "0123456789"
  const HexDigits: string := "0123456789abcdef"

  predicate IsDecimalDigit(ch: char) { '0' <= ch <= '9' }

  predicate IsLowerHexDigit(ch: char) { '0' <= ch <= '9' || 'a' <= ch <= 'f' }

  /**
   * `${n}` for a non-negative integer below 10^21 (JavaScript switches to
   * exponent notation only from there): decimal digits, most significant
   * first, with no leading zero.
   */
  function Decimal(n: nat): (r: string)
    ensures |r| >= 1
    ensures forall i :: 0 <= i < |r| ==> IsDecimalDigit(r[i])
    ensures r[0] == '0' ==> r == "0"
    decreases n
  {
    if n < 10 then [DecimalDigits[n]]
    else Decimal(n / 10) + [DecimalDigits[n % 10]]
  }

  function DigitValue(ch: char): (d: nat)
    ensures d < 10
  {
    if IsDecimalDigit(ch) then ch as int - '0' as int else 0
  }

  /** Reads a string of decimal digits back as a number; the inverse of Decimal. */
  function ParseDecimal(s: string): nat
  {
    if |s| == 0 then 0
    else 10 * ParseDecimal(s[..|s| - 1]) + DigitValue(s[|s| - 1])
  }

  lemma {:induction false} ParseDecimalOfDecimal(n: nat)
    ensures ParseDecimal(Decimal(n)) == n
    decreases n
  {
    var r := Decimal(n);
    if n >= 10 {
      ParseDecimalOfDecimal(n / 10);
      assert r[..|r| - 1] == Decimal(n / 10);
    }
  }

  /** Distinct numbers render as distinct decimal texts. */
  lemma DecimalInjective(m: nat, n: nat)
    ensures Decimal(m) == Decimal(n) ==> m == n
  {
    ParseDecimalOfDecimal(m);
    ParseDecimalOfDecimal(n);
  }

  /**
   * `Buffer.from(bytes).toString("hex")`: two lowercase hexadecimal digits
   * per byte, high nibble first.
   */
  function Hex(bytes: seq<byte>): (r: string)
    ensures |r| == 2 * |bytes|
    ensures forall i :: 0 <= i < |r| ==> IsLowerHexDigit(r[i])
  {
    if |bytes| == 0 then ""
    else [HexDigits[bytes[0] as int / 16], HexDigits[bytes[0] as int % 16]] + Hex(bytes[1..])
  }

  function HexValue(ch: char): (d: nat)
    ensures d < 16
  {
    if IsDecimalDigit(ch) then ch as int - '0' as int
    else if 'a' <= ch <= 'f' then ch as int - 'a' as int + 10
    else 0
  }

  /** Reads pairs of hexadecimal digits back as bytes; the inverse of Hex. */
  function UnHex(s: string): seq<byte>
    decreases |s|
  {
    if |s| < 2 then []
    else [(16 * HexValue(s[0]) + HexValue(s[1])) as byte] + UnHex(s[2..])
  }

  lemma HexValueOfDigit(d: nat)
    requires d < 16
    ensures HexValue(HexDigits[d]) == d
  {
    if d < 10 {
      assert HexDigits[d] == DecimalDigits[d];
    }
  }

  /** The two digits Hex writes for a byte read back as that byte. */
  lemma UnHexPair(b: byte)
    ensures (16 * HexValue(HexDigits[b as int / 16]) + HexValue(HexDigits[b as int % 16])) as byte == b
  {
    HexValueOfDigit(b as int / 16);
    HexValueOfDigit(b as int % 16);
  }

  lemma {:induction false} UnHexOfHex(bytes: seq<byte>)
    ensures UnHex(Hex(bytes)) == bytes
    decreases |bytes|
  {
    if |bytes| > 0 {
      UnHexOfHex(bytes[1..]);
      UnHexPair(bytes[0]);
      var r := Hex(bytes);
      assert r[0] == HexDigits[bytes[0] as int / 16];
      assert r[1] == HexDigits[bytes[0] as int % 16];
      assert r[2..] == Hex(bytes[1..]);
      assert UnHex(r) == [bytes[0]] + UnHex(r[2..]);
      assert [bytes[0]] + bytes[1..] == bytes;
    }
  }
}
