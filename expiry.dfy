/** The `Expiry` command-argument converter: a month name becomes an `MMM-YY` contract expiry,
    resolved to the next occurrence of that month on or after today's month. */
module Expiry {
  import opened Wrappers
  import opened Lists
  import opened Decimal

  /** The two fields of `datetime.date.today()` the converter reads. */
  datatype Date = Date(year: int, month: int)

  predicate ValidDate(d: Date) {
    1 <= d.year <= 9999 && 1 <= d.month <= 12
  }

  /** `commands.BadArgument`, carrying the normalised argument it names in its message. */
  datatype BadArgument = NotAMonth(argument: string)

  const Months: map<string, int> :=
    map["JAN" := 1, "FEB" := 2, "MAR" := 3, "APR" := 4, "MAY" := 5, "JUN" := 6,
        "JUL" := 7, "AUG" := 8, "SEP" := 9, "OCT" := 10, "NOV" := 11, "DEC" := 12]

  function UpperChar(c: char): char {
    if 'a' <= c <= 'z' then (c as int - 32) as char else c
  }

  /** `str.upper()` on ASCII letters. */
  function Upper(s: string): (r: string)
    ensures |r| == |s|
  {
    seq(|s|, i requires 0 <= i < |s| => UpperChar(s[i]))
  }

  /** `argument.upper()[:3]`. */
  function MonthKey(argument: string): string {
    Take(Upper(argument), 3)
  }

  function Convert(argument: string, today: Date): (r: Result<string, BadArgument>)
    requires ValidDate(today)
    ensures r.Err? <==> MonthKey(argument) !in Months
    ensures r.Err? ==> r.error == NotAMonth(MonthKey(argument))
    ensures r.Ok? ==> |r.value| >= 5 && r.value[..3] == MonthKey(argument) && r.value[3] == '-'
  {
    var key := MonthKey(argument);
    if key !in Months then Err(NotAMonth(key))
    else
      var month := Months[key];
      var currentYear := today.year % 100;
      if month >= today.month then Ok(key + "-" + NatToString(currentYear))
      else Ok(key + "-" + NatToString(currentYear + 1))
  }

  /** The month number and two-digit year written in an expiry token `MMM-YY`. */
  function MonthOf(e: string): int
    requires |e| >= 3 && e[..3] in Months
  {
    Months[e[..3]]
  }

  /** Rollover rule, read back from the produced text: the expiry names the first occurrence of
      its month that is not before today's month, counting the year modulo 100 as the converter does. */
  lemma ConvertIsNextOccurrence(argument: string, today: Date)
    requires ValidDate(today)
    requires Convert(argument, today).Ok?
    ensures var e := Convert(argument, today).value;
            && e[..3] in Months
            && AllDigits(e[4..])
            && var yy := ParseDigits(e[4..]);
            && yy == (if MonthOf(e) >= today.month then today.year % 100 else today.year % 100 + 1)
            && 0 <= 12 * yy + MonthOf(e) - (12 * (today.year % 100) + today.month) < 12
  {
    var key := MonthKey(argument);
    var e := Convert(argument, today).value;
    var yy := if Months[key] >= today.month then today.year % 100 else today.year % 100 + 1;
    assert e == key + "-" + NatToString(yy);
    assert e[..3] == key;
    assert e[4..] == NatToString(yy);
    ParseNatToString(yy);
  }

  /** Case and anything after the third character are ignored: two arguments that are both at
      least three characters long, or equally long, and agree up to case on their first three
      characters convert alike. */
  lemma ConvertReadsOnlyThreeLetters(a: string, b: string, today: Date)
    requires ValidDate(today)
    requires (|a| >= 3 && |b| >= 3) || |a| == |b|
    requires forall i :: 0 <= i < 3 && i < |a| && i < |b| ==> UpperChar(a[i]) == UpperChar(b[i])
    ensures Convert(a, today) == Convert(b, today)
  {
    assert |MonthKey(a)| == |MonthKey(b)|;
    assert MonthKey(a) == MonthKey(b);
  }

  /** Within the years 2010..2098 of a date the expiry is always written `MMM-YY`, six characters. */
  lemma ConvertSixCharacters(argument: string, today: Date)
    requires ValidDate(today)
    requires 10 <= today.year % 100 <= 98
    requires Convert(argument, today).Ok?
    ensures |Convert(argument, today).value| == 6
  {
    var yy := if Months[MonthKey(argument)] >= today.month then today.year % 100 else today.year % 100 + 1;
    NatToStringWidth(yy);
  }

  /** `str()` does not pad: in December 2099 a January argument resolves to `JAN-100`, and in 2005 to `JAN-5`. */
  lemma ConvertYearIsNotPadded()
    ensures Convert("jan", Date(2099, 12)) == Ok("JAN-100")
    ensures Convert("January", Date(2005, 1)) == Ok("JAN-5")
  {
    assert MonthKey("jan") == "JAN" && MonthKey("January") == "JAN";
    assert "JAN" in Months && Months["JAN"] == 1;
    assert NatToString(1) == "1" && NatToString(0) == "0" && NatToString(5) == "5";
    assert NatToString(10) == "10";
    assert NatToString(100) == "100";
    assert 2099 % 100 + 1 == 100 && 2005 % 100 == 5;
    assert Convert("jan", Date(2099, 12)) == Ok("JAN" + "-" + NatToString(100));
    assert Convert("January", Date(2005, 1)) == Ok("JAN" + "-" + NatToString(5));
    assert "JAN" + "-" + "100" == "JAN-100";
    assert "JAN" + "-" + "5" == "JAN-5";
  }

  /** An unknown month is rejected with the normalised text in the error. */
  lemma ConvertRejectsFrench()
    ensures Convert("juin", Date(2024, 6)) == Err(NotAMonth("JUI"))
  {
    assert MonthKey("juin") == "JUI";
  }
}
