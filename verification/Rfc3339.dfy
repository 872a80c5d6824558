/** The RFC 3339 printer of fail_closed.rs and the parser of appauth.rs. */
module Rfc3339 {
  import opened Wrappers
  import opened Decimal
  import opened Text
  import opened Calendar

  /** The cast `u64 as i64`: two's complement wrap-around. */
  function AsI64(u: nat): int
    requires u < U64_LIMIT
  {
    if u < I64_LIMIT then u else u - U64_LIMIT
  }

  function Format(unixSecs: nat): string
    requires unixSecs < U64_LIMIT
  {
    FormatSeconds(AsI64(unixSecs))
  }

  function FormatSeconds(secs: int): string {
    FormatAt(CivilFromDays(secs / 86400), secs % 86400)
  }

  function FormatAt(date: Date, sod: int): string {
    FormatFields(date, TruncDiv(sod, 3600), TruncDiv(TruncMod(sod, 3600), 60), TruncMod(sod, 60))
  }

  function FormatDate(date: Date): string {
    PrintPadded(date.y, 4) + ['-'] + (PrintPadded(date.m, 2) + ['-'] + PrintPadded(date.d, 2))
  }

  function FormatTime(h: int, mi: int, s: int): string {
    PrintPadded(h, 2) + [':'] + (PrintPadded(mi, 2) + [':'] + PrintPadded(s, 2))
  }

  function FormatFields(date: Date, h: int, mi: int, s: int): string {
    FormatDate(date) + ['T'] + FormatTime(h, mi, s) + ['Z']
  }

  /** Three integers separated by `c`, and nothing else. */
  function ParseTriple(s: string, c: char): Option<(int, int, int)> {
    var parts := Split(s, c);
    if |parts| != 3 then None
    else
      match (ParseI64(parts[0]), ParseI64(parts[1]), ParseI64(parts[2]))
      case (Some(x), Some(y), Some(z)) => Some((x, y, z))
      case _ => None
  }

  datatype Fields = Fields(date: Date, h: int, mi: int, se: int) {
    function SecondOfDay(): int {
      h * 3600 + mi * 60 + se
    }
  }

  function Parse(text: string): Option<int> {
    match ParseFields(text)
    case None => None
    case Some(f) => Some(UnixSeconds(f))
  }

  function UnixSeconds(f: Fields): int {
    DaysFromCivil(f.date.y, f.date.m, f.date.d) * 86400 + f.SecondOfDay()
  }

  function ParseFields(text: string): Option<Fields> {
    var s := Trim(text);
    if s == [] || s[|s| - 1] != 'Z' then None
    else
      var body := s[..|s| - 1];
      match FirstIndex(body, 'T')
      case None => None
      case Some(t) => ParseDateTime(body[..t], body[t + 1..])
  }

  function ParseDateTime(date: string, time: string): Option<Fields> {
    match (ParseTriple(date, '-'), ParseTriple(Split(time, '.')[0], ':'))
    case (Some((y, mo, da)), Some((h, mi, se))) =>
      if !(1 <= mo <= 12) || !(1 <= da <= 31) || h > 23 || mi > 59 || se > 60 then None
      else Some(Fields(Date(y, mo, da), h, mi, se))
    case _ => None
  }

  lemma SplitTriple(a: string, b: string, d: string, c: char)
    requires c !in a && c !in b && c !in d
    ensures Split(a + [c] + (b + [c] + d), c) == [a, b, d]
  {
    SplitAt(a, c, b + [c] + d);
    SplitAt(b, c, d);
    SplitNone(d, c);
  }

  lemma TripleRoundTrip(x: nat, w: nat, y: nat, z: nat, c: char)
    requires x < I64_LIMIT && y < I64_LIMIT && z < I64_LIMIT && !IsDigit(c)
    ensures ParseTriple(PrintPadded(x, w) + [c] + (PrintPadded(y, 2) + [c] + PrintPadded(z, 2)), c) == Some((x, y, z))
  {
    SplitTriple(PrintPadded(x, w), PrintPadded(y, 2), PrintPadded(z, 2), c);
    ParseI64OfPrintPadded(x, w);
    ParseI64OfPrintPadded(y, 2);
    ParseI64OfPrintPadded(z, 2);
  }

  lemma ParseSeesFields(date: string, time: string)
    requires date != [] && !IsWhitespace(date[0]) && 'T' !in date
    ensures ParseFields(date + ['T'] + time + ['Z']) == ParseDateTime(date, time)
  {
    var s := date + ['T'] + time + ['Z'];
    assert Trim(s) == s;
    var body := s[..|s| - 1];
    assert body == date + ['T'] + time;
    FirstIndexAt(date, 'T', time);
    assert body[..|date|] == date && body[|date| + 1..] == time;
  }

  /** A year before 0 prints with a sign, which the parser takes for a separator. */
  lemma NegativeYearRejected(y: int, rest: string)
    requires y < 0
    ensures ParseTriple(PrintPadded(y, 4) + ['-'] + rest, '-').None?
  {
    var s := PrintPadded(y, 4) + ['-'] + rest;
    assert s == [] + ['-'] + s[1..];
    SplitAt([], '-', s[1..]);
    assert Split(s, '-')[0] == [];
  }

  lemma DateParses(date: Date)
    requires IsDate(date) && 0 <= date.y < I64_LIMIT
    ensures var d := FormatDate(date);
            ParseTriple(d, '-') == Some((date.y, date.m, date.d)) && d != [] && IsDigit(d[0]) && 'T' !in d
  {
    var y := PrintPadded(date.y, 4);
    assert y[0] in y;
    TripleRoundTrip(date.y, 4, date.m, date.d, '-');
  }

  lemma TimeParses(h: nat, mi: nat, se: nat)
    requires h < 24 && mi < 60 && se < 60
    ensures ParseTriple(Split(FormatTime(h, mi, se), '.')[0], ':') == Some((h, mi, se))
  {
    SplitNone(FormatTime(h, mi, se), '.');
    TripleRoundTrip(h, 2, mi, se, ':');
  }

  lemma FieldsParse(date: Date, h: nat, mi: nat, se: nat)
    requires IsDate(date) && 0 <= date.y < I64_LIMIT && h < 24 && mi < 60 && se < 60
    ensures ParseFields(FormatFields(date, h, mi, se)) == Some(Fields(date, h, mi, se))
  {
    DateParses(date);
    TimeParses(h, mi, se);
    ParseSeesFields(FormatDate(date), FormatTime(h, mi, se));
  }

  lemma FieldsOfNegativeYear(date: Date, h: nat, mi: nat, se: nat)
    requires IsDate(date) && date.y < 0
    ensures ParseFields(FormatFields(date, h, mi, se)).None?
  {
    var d, t := FormatDate(date), FormatTime(h, mi, se);
    assert d[0] == '-';
    ParseSeesFields(d, t);
    NegativeYearRejected(date.y, PrintPadded(date.m, 2) + ['-'] + PrintPadded(date.d, 2));
  }

  lemma YearInRange(days: int)
    requires -I64_LIMIT <= days < I64_LIMIT
    ensures CivilFromDays(days).y < I64_LIMIT
  {
    var era, yoe, mp, d := EraFormOfDays(days);
    CivilFromEra(era, yoe, mp, d);
  }

  function ClockFields(date: Date, sod: nat): Fields {
    Fields(date, sod / 3600, (sod % 3600) / 60, sod % 60)
  }

  lemma FormatAtParses(date: Date, sod: nat)
    requires IsDate(date) && date.y < I64_LIMIT && sod < 86400
    ensures ParseFields(FormatAt(date, sod)) == if date.y >= 0 then Some(ClockFields(date, sod)) else None
  {
    var f := ClockFields(date, sod);
    assert FormatAt(date, sod) == FormatFields(date, f.h, f.mi, f.se);
    if date.y >= 0 {
      FieldsParse(date, f.h, f.mi, f.se);
    } else {
      FieldsOfNegativeYear(date, f.h, f.mi, f.se);
    }
  }

  lemma SecondsOfClock(sod: nat)
    ensures sod == sod / 3600 * 3600 + (sod % 3600) / 60 * 60 + sod % 60
  {
    var r := sod % 3600;
    assert sod == 60 * (60 * (sod / 3600)) + r;
    assert sod % 60 == r % 60;
  }

  lemma UnixSecondsOfClock(days: int, sod: nat)
    ensures UnixSeconds(ClockFields(CivilFromDays(days), sod)) == days * 86400 + sod
  {
    DaysOfCivilOf(days);
    SecondsOfClock(sod);
  }

  /** The fields of the formatted text, whatever the year's sign. */
  lemma FormattedFields(days: int, sod: nat) returns (f: Fields)
    requires CivilFromDays(days).y < I64_LIMIT && sod < 86400
    ensures ParseFields(FormatAt(CivilFromDays(days), sod)) == if CivilFromDays(days).y >= 0 then Some(f) else None
    ensures UnixSeconds(f) == days * 86400 + sod
  {
    f := ClockFields(CivilFromDays(days), sod);
    assert IsDate(CivilFromDays(days)) by { DaysOfCivilOf(days); }
    FormatAtParses(CivilFromDays(days), sod);
    UnixSecondsOfClock(days, sod);
  }

  /** What parsing gives back for every input of the printer, the wrapped ones included. */
  lemma ParseOfFormat(n: nat)
    requires n < U64_LIMIT
    ensures Parse(Format(n)) ==
            if CivilFromDays(AsI64(n) / 86400).y >= 0 then Some(AsI64(n)) else None
  {
    var days, sod := SplitSeconds(AsI64(n));
    var f := FormattedFields(days, sod);
  }

  lemma SplitSeconds(secs: int) returns (days: int, sod: nat)
    requires -I64_LIMIT <= secs < I64_LIMIT
    ensures days == secs / 86400 && sod == secs % 86400 && secs == days * 86400 + sod && sod < 86400
    ensures CivilFromDays(days).y < I64_LIMIT
  {
    days, sod := secs / 86400, secs % 86400;
    YearInRange(days);
  }

  /** The round trip holds for exactly the timestamps below 2^63. */
  lemma RoundTrip(n: nat)
    requires n < U64_LIMIT
    ensures Parse(Format(n)) == Some(n) <==> n < I64_LIMIT
  {
    ParseOfFormat(n);
    if n < I64_LIMIT {
      YearAfterEpoch(n / 86400);
    }
  }

  lemma YearAfterEpoch(days: nat)
    ensures CivilFromDays(days).y >= 1970
  {
    var era, yoe, mp, d := EraFormOfDays(days);
    CivilFromEra(era, yoe, mp, d);
  }
}
