/**
 * How the XML logger names the file it writes to: the configured log name,
 * or a temporary name built from the two-digit year and the Julian-calendar
 * day of the year, placed in the assembly directory with the ".xml" extension.
 */
module LogNaming {

  /** The character of a decimal digit. */
  function DigitChar(d: nat): (c: char)
    requires d < 10
    ensures IsDigit(c) && DigitValue(c) == d
  {
    (('0' as int) + d) as char
  }

  predicate IsDigit(c: char) {
    '0' <= c <= '9'
  }

  /** The value of a decimal digit character; inverse of DigitChar. */
  function DigitValue(c: char): (d: nat)
    requires IsDigit(c)
    ensures d < 10
  {
    (c as int) - ('0' as int)
  }

  predicate AllDigits(s: string) {
    forall i :: 0 <= i < |s| ==> IsDigit(s[i])
  }

  /**
   * The default rendering of a non-negative integer in an interpolated string:
   * decimal digits, no sign, no padding and no leading zero.
   */
  function Decimal(n: nat): (s: string)
    ensures 1 <= |s| && AllDigits(s)
    ensures |s| > 1 ==> s[0] != '0'
    ensures n < 10 <==> |s| == 1
    decreases n
  {
    if n < 10 then [DigitChar(n)] else Decimal(n / 10) + [DigitChar(n % 10)]
  }

  /** Reads a string of decimal digits back as a number; the partner of Decimal. */
  function ParseDecimal(s: string): nat
    requires AllDigits(s)
  {
    if s == [] then 0 else ParseDecimal(s[..|s| - 1]) * 10 + DigitValue(s[|s| - 1])
  }

  lemma {:induction false} DecimalRoundTrip(n: nat)
    ensures ParseDecimal(Decimal(n)) == n
    decreases n
  {
    var s := Decimal(n);
    if n >= 10 {
      DecimalRoundTrip(n / 10);
      assert s[..|s| - 1] == Decimal(n / 10);
    }
  }

  /** Distinct numbers are rendered as distinct strings. */
  lemma DecimalInjective(m: nat, n: nat)
    ensures Decimal(m) == Decimal(n) <==> m == n
  {
    DecimalRoundTrip(m);
    DecimalRoundTrip(n);
  }

  /** The "yy" format of a year: its last two digits, zero-padded. */
  function TwoDigitYear(year: nat): (s: string)
    ensures |s| == 2 && AllDigits(s)
    ensures ParseDecimal(s) == year % 100
  {
    var yy := year % 100;
    var s := [DigitChar(yy / 10), DigitChar(yy % 10)];
    assert s[..1] == [s[0]] && [s[0]][..0] == [];
    assert ParseDecimal(s[..1]) == yy / 10;
    s
  }

  const TEMP_PREFIX: string := "TEMP-"

  /**
   * The name used when no log name is configured: the last two digits of the
   * year in the current culture's calendar (Gregorian for most cultures), then
   * the Julian-calendar day of the year, unpadded.
   */
  function TempLogName(year: nat, dayOfYear: nat): (name: string)
    ensures |TEMP_PREFIX| + 3 <= |name| && name[..|TEMP_PREFIX|] == TEMP_PREFIX
    ensures AllDigits(name[|TEMP_PREFIX|..])
  {
    TEMP_PREFIX + TwoDigitYear(year) + Decimal(dayOfYear)
  }

  /**
   * Two temporary names coincide exactly when the years agree in their last
   * two digits and the Julian-calendar day-of-year values are equal.
   */
  lemma TempLogNameInjective(year1: nat, day1: nat, year2: nat, day2: nat)
    ensures TempLogName(year1, day1) == TempLogName(year2, day2)
        <==> year1 % 100 == year2 % 100 && day1 == day2
  {
    var a, b := TempLogName(year1, day1), TempLogName(year2, day2);
    var n := |TEMP_PREFIX|;
    assert a[n..n + 2] == TwoDigitYear(year1) && a[n + 2..] == Decimal(day1);
    assert b[n..n + 2] == TwoDigitYear(year2) && b[n + 2..] == Decimal(day2);
    if a == b {
      DecimalInjective(day1, day2);
    }
    if year1 % 100 == year2 % 100 && day1 == day2 {
      assert TwoDigitYear(year1) == TwoDigitYear(year2);
    }
  }

  /**
   * The day of the year is not zero-padded: a day below 10 gives a name of
   * eight characters, one below 100 a name of nine.
   */
  lemma TempLogNameLength(year: nat, dayOfYear: nat)
    requires 1 <= dayOfYear
    ensures dayOfYear < 10 ==> |TempLogName(year, dayOfYear)| == 8
    ensures 10 <= dayOfYear < 100 ==> |TempLogName(year, dayOfYear)| == 9
    ensures 100 <= dayOfYear < 1000 ==> |TempLogName(year, dayOfYear)| == 10
  {
    if 10 <= dayOfYear < 100 {
      assert |Decimal(dayOfYear / 10)| == 1;
    } else if 100 <= dayOfYear < 1000 {
      assert |Decimal(dayOfYear / 10 / 10)| == 1;
      assert |Decimal(dayOfYear / 10)| == 2;
    }
  }

  /** A day-of-year value of 15 with the year 2024 gives "TEMP-2415": no padding, no separator. */
  lemma TempLogNameExample()
    ensures TempLogName(2024, 15) == "TEMP-2415"
  {
  }

  /** The log name: the configured one verbatim, or the temporary one when it is empty. */
  function LogName(configured: string, year: nat, dayOfYear: nat): (name: string)
    ensures configured != "" ==> name == configured
    ensures configured == "" ==> name == TempLogName(year, dayOfYear)
  {
    if configured == "" then TempLogName(year, dayOfYear) else configured
  }

  const EXTENSION: string := ".xml"

  /** The log file: the assembly directory, the log name and ".xml", joined without separators. */
  function LogPath(assemblyPath: string, name: string): (path: string)
    ensures |path| == |assemblyPath| + |name| + |EXTENSION|
    ensures path[..|assemblyPath|] == assemblyPath
    ensures path[|assemblyPath|..|assemblyPath| + |name|] == name
    ensures path[|path| - |EXTENSION|..] == EXTENSION
  {
    assemblyPath + name + EXTENSION
  }

  /** In one directory, distinct log names give distinct path strings. */
  lemma LogPathInjective(assemblyPath: string, name1: string, name2: string)
    ensures LogPath(assemblyPath, name1) == LogPath(assemblyPath, name2) <==> name1 == name2
  {
  }
}
