/**
 * The two Python string operations the script relies on, written out:
 * str.join, and the "%H:%M" rendering of datetime.strftime.
 */
module PyText {

  /** sep.join(lines). */
  function Join(lines: seq<string>, sep: string): string
    decreases |lines|
  {
    if |lines| == 0 then ""
    else if |lines| == 1 then lines[0]
    else Join(lines[..|lines| - 1], sep) + sep + lines[|lines| - 1]
  }

  /** A non-empty join starts with the first line. */
  lemma {:induction false} JoinStartsWithFirst(lines: seq<string>, sep: string)
    requires |lines| > 0
    ensures lines[0] <= Join(lines, sep)
    decreases |lines|
  {
    if |lines| > 1 {
      var init := lines[..|lines| - 1];
      JoinStartsWithFirst(init, sep);
      assert init[0] == lines[0];
    }
  }

  predicate IsDigit(c: char) { '0' <= c <= '9' }

  function DigitValue(c: char): int requires IsDigit(c) { c as int - '0' as int }

  function DigitChar(d: int): (c: char)
    requires 0 <= d < 10
    ensures IsDigit(c) && DigitValue(c) == d
  {
    (d + '0' as int) as char
  }

  /** A number below 100 as two zero-padded decimal digits ("%02d"). */
  function TwoDigits(n: int): (r: string)
    requires 0 <= n < 100
    ensures |r| == 2 && IsDigit(r[0]) && IsDigit(r[1])
    ensures 10 * DigitValue(r[0]) + DigitValue(r[1]) == n
  {
    [DigitChar(n / 10), DigitChar(n % 10)]
  }

  /** strftime("%H:%M"): five characters, the zero-padded hour, a colon and
      the zero-padded minute, from which both are read back. */
  function FormatHM(hour: int, minute: int): (r: string)
    requires 0 <= hour < 24 && 0 <= minute < 60
    ensures |r| == 5 && r[2] == ':'
    ensures IsDigit(r[0]) && IsDigit(r[1]) && IsDigit(r[3]) && IsDigit(r[4])
    ensures 10 * DigitValue(r[0]) + DigitValue(r[1]) == hour
    ensures 10 * DigitValue(r[3]) + DigitValue(r[4]) == minute
  {
    TwoDigits(hour) + ":" + TwoDigits(minute)
  }
}
