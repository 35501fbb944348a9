/** The start time read out of a `/proc/<pid>/stat` line. */
module ProcessStat {
  import opened Wrappers
  import Bytes
  import opened Text

  /** The Unicode White_Space property. */
  predicate IsWhitespace(c: char) {
    var n := c as int;
    || 0x09 <= n <= 0x0d || n == 0x20 || n == 0x85 || n == 0xa0 || n == 0x1680 || 0x2000 <= n <= 0x200a
    || n == 0x2028 || n == 0x2029 || n == 0x202f || n == 0x205f || n == 0x3000
  }

  predicate IsFieldCharacter(c: char) {
    !IsWhitespace(c)
  }

  predicate IsDigit(c: char) {
    '0' <= c <= '9'
  }

  predicate AreDigits(digits: string) {
    forall i | 0 <= i < |digits| :: IsDigit(digits[i])
  }

  function DecimalValue(digits: string): nat
    requires AreDigits(digits)
  {
    if digits == [] then 0
    else
      assert IsDigit(digits[|digits| - 1]);
      10 * DecimalValue(digits[..|digits| - 1]) + (digits[|digits| - 1] as int - '0' as int)
  }

  /** An optional plus sign, at least one digit, nothing else, and no overflow. */
  function ParseU64(text: string): Option<Bytes.u64> {
    var digits := if text != [] && text[0] == '+' then text[1..] else text;
    if digits != [] && AreDigits(digits) && DecimalValue(digits) < 0x1_0000_0000_0000_0000 then Some(DecimalValue(digits))
    else None
  }

  const START_TIME_FIELD: nat := 19

  function StartTimeTicks(stat: string): Option<Bytes.u64> {
    match RFind(stat, ") ")
    case None => None
    case Some(close) =>
      var fields := Runs(stat[close + 2..], IsFieldCharacter);
      if |fields| <= START_TIME_FIELD then None else ParseU64(fields[START_TIME_FIELD])
  }

  function Decimal(n: nat): (digits: string)
    ensures digits != [] && AreDigits(digits)
    ensures DecimalValue(digits) == n
  {
    if n < 10 then DigitOf(n) else Decimal(n / 10) + DigitOf(n % 10)
  }

  function DigitOf(n: nat): (digit: string)
    requires n < 10
    ensures |digit| == 1 && IsDigit(digit[0]) && digit[0] as int - '0' as int == n
  {
    [('0' as int + n) as char]
  }

  lemma ParseReadsDecimal(n: Bytes.u64)
    ensures ParseU64(Decimal(n)) == Some(n)
  {
    assert IsDigit(Decimal(n)[0]);
  }

  function Zeros(k: nat): (zeros: string)
    ensures AreDigits(zeros)
  {
    seq(k, _ => '0')
  }

  lemma {:induction false} ZerosValue(k: nat, digits: string)
    requires AreDigits(digits)
    ensures DecimalValue(Zeros(k) + digits) == DecimalValue(digits)
    decreases k + |digits|
  {
    var all := Zeros(k) + digits;
    if digits != [] {
      assert all[..|all| - 1] == Zeros(k) + digits[..|digits| - 1];
      ZerosValue(k, digits[..|digits| - 1]);
    } else if k > 0 {
      assert all[..|all| - 1] == Zeros(k - 1) + digits;
      ZerosValue(k - 1, digits);
    }
  }

  /** Digits are their value's numeral with zeros in front. */
  lemma {:induction false} DigitsAreNumeral(digits: string) returns (k: nat)
    requires digits != [] && AreDigits(digits)
    ensures digits == Zeros(k) + Decimal(DecimalValue(digits))
  {
    var before, last := digits[..|digits| - 1], digits[|digits| - 1..];
    var value := last[0] as int - '0' as int;
    assert digits == before + last && last == DigitOf(value);
    if before == [] {
      k := 0;
    } else {
      var zeros := DigitsAreNumeral(before);
      k := NumeralGrows(zeros, DecimalValue(before), value);
      assert digits[|digits| - 1] == last[0];
    }
  }

  lemma NumeralGrows(zeros: nat, n: nat, digit: nat) returns (k: nat)
    requires digit < 10
    ensures Zeros(zeros) + Decimal(n) + DigitOf(digit) == Zeros(k) + Decimal(10 * n + digit)
  {
    if n == 0 {
      k := zeros + 1;
      assert Decimal(0) == ['0'];
      assert Zeros(zeros) + ['0'] == Zeros(k);
    } else {
      k := zeros;
      assert Decimal(10 * n + digit) == Decimal(n) + DigitOf(digit);
      assert Zeros(zeros) + Decimal(n) + DigitOf(digit) == Zeros(zeros) + (Decimal(n) + DigitOf(digit));
    }
  }

  /** A number as it may be written: perhaps a plus sign, perhaps zeros, and its decimal digits. */
  function Numeral(plus: bool, zeros: nat, n: nat): string {
    (if plus then "+" else "") + (Zeros(zeros) + Decimal(n))
  }

  /** Exactly what parses: the ways of writing a number below 2^64. */
  lemma ParseExact(text: string, n: Bytes.u64)
    ensures ParseU64(text) == Some(n) <==> exists plus, zeros :: text == Numeral(plus, zeros, n)
  {
    forall plus, zeros | text == Numeral(plus, zeros, n)
      ensures ParseU64(text) == Some(n)
    {
      NumeralParses(plus, zeros, n);
    }
    if ParseU64(text) == Some(n) {
      var plus := text[0] == '+';
      var digits := if plus then text[1..] else text;
      var zeros := DigitsAreNumeral(digits);
      assert text == Numeral(plus, zeros, n);
    }
  }

  lemma NumeralParses(plus: bool, zeros: nat, n: Bytes.u64)
    ensures ParseU64(Numeral(plus, zeros, n)) == Some(n)
  {
    var digits := Zeros(zeros) + Decimal(n);
    ZerosValue(zeros, Decimal(n));
    assert IsDigit(digits[0]);
    assert Numeral(plus, zeros, n) == if plus then "+" + digits else digits;
    assert ("+" + digits)[1..] == digits;
  }

  lemma {:induction false} JoinedFree(words: seq<string>, separator: string, c: char)
    requires c !in separator && forall i | 0 <= i < |words| :: c !in words[i]
    ensures c !in Join(words, separator)
  {
    if |words| > 1 {
      JoinedFree(words[1..], separator, c);
    }
  }

  /** Fields after the process name: non-empty, free of white space, and none holding a closing parenthesis. */
  predicate AreFields(fields: seq<string>) {
    AreWords(fields, IsFieldCharacter) && forall i | 0 <= i < |fields| :: ')' !in fields[i]
  }

  /** Whatever the process calls itself, the fields counted are those after its name. */
  lemma StatFieldsAfterName(pid: string, name: string, fields: seq<string>, newline: bool)
    requires AreFields(fields)
    ensures
      var stat := pid + " (" + name + ") " + (Join(fields, " ") + if newline then "\n" else "");
      StartTimeTicks(stat) == if |fields| < 20 then None else ParseU64(fields[19])
  {
    var end := if newline then "\n" else "";
    var rest := Join(fields, " ") + end;
    JoinedFree(fields, " ", ')');
    RFindLast(pid + " (" + name, ") ", rest);
    assert (pid + " (" + name + ") " + rest)[|pid + " (" + name| + 2..] == rest;
    assert Runs(end, IsFieldCharacter) == [] by {
      if newline {
        assert RunLength(end, IsFieldCharacter) == 0 && end[1..] == [];
      }
    }
    assert " " == [' '];
    RunsOfJoined(fields, ' ', IsFieldCharacter, end);
  }

  /** A line without a closing parenthesis before a space has no start time. */
  lemma NoNameNoTicks(stat: string)
    requires forall i: nat :: !MatchesAt(stat, ") ", i)
    ensures StartTimeTicks(stat) == None
  {
    assert RFind(stat, ") ").None?;
  }

  /** So a stat line with a decimal start time in its place yields that number. */
  lemma StartTimeIsRead(pid: string, name: string, fields: seq<string>, newline: bool, ticks: Bytes.u64)
    requires AreFields(fields) && |fields| >= 20 && fields[19] == Decimal(ticks)
    ensures StartTimeTicks(pid + " (" + name + ") " + (Join(fields, " ") + if newline then "\n" else "")) == Some(ticks)
  {
    StatFieldsAfterName(pid, name, fields, newline);
    ParseReadsDecimal(ticks);
  }
}
