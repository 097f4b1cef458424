/** The decimal digits of Unicode's basic multilingual plane: the UTF-16 code units for which
    QChar::isDigit holds.  They come in blocks of ten. */
module Characters {

  /** The zeros of the blocks of decimal digits beyond ASCII. */
  const ZEROS: seq<int> := [
    0x0660, 0x06F0, 0x07C0, 0x0966, 0x09E6, 0x0A66, 0x0AE6, 0x0B66, 0x0BE6, 0x0C66, 0x0CE6, 0x0D66, 0x0DE6,
    0x0E50, 0x0ED0, 0x0F20, 0x1040, 0x1090, 0x17E0, 0x1810, 0x1946, 0x19D0, 0x1A80, 0x1A90, 0x1B50, 0x1BB0, 0x1C40,
    0x1C50, 0xA620, 0xA8D0, 0xA900, 0xA9D0, 0xA9F0, 0xAA50, 0xABF0, 0xFF10]

  /** QChar::digitValue for decimal digits, and -1 for everything else. */
  function DigitValue(c: char): (v: int)
    ensures -1 <= v <= 9
    ensures c as int < 128 ==> v == if '0' <= c <= '9' then c as int - '0' as int else -1
  {
    if c as int < 128 then if '0' <= c <= '9' then c as int - '0' as int else -1
    else DigitValueFrom(c, ZEROS)
  }

  function DigitValueFrom(c: char, zeros: seq<int>): (v: int)
    ensures -1 <= v <= 9
  {
    if zeros == [] then -1
    else if zeros[0] <= c as int <= zeros[0] + 9 then c as int - zeros[0]
    else DigitValueFrom(c, zeros[1..])
  }

  predicate IsDigit(c: char) {
    DigitValue(c) >= 0
  }

  predicate IsAsciiDigit(c: char) {
    '0' <= c <= '9'
  }
}
