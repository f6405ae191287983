/** `datetime.strptime(s, fmt)` for the formats the scripts use.

    CPython compiles a format into a regular expression: each directive becomes
    an alternation of fixed-width digit patterns (tried in order), a blank
    becomes `\s+`, any other character stands for itself. It then takes the
    first match the backtracking engine finds at position 0, raises
    `ValueError` unless that match covers the whole string, and finally lets
    `datetime(...)` reject impossible dates and times. `Match` below is that
    engine restricted to those three kinds of pieces. */
module Strptime {
  import opened Wrappers
  import opened Text
  import opened Calendar

  /** The directives `%Y %m %d %H %M %S`. */
  datatype Directive = Year | Month | Day | Hour | Minute | Second

  /** One piece of a compiled format. */
  datatype Piece = Lit(c: char) | Blank | Group(d: Directive)

  type Format = seq<Piece>

  datatype CharClass = AnyDigit | DigitIn(lo: char, hi: char) | Exactly(c: char)

  predicate InClass(c: char, k: CharClass) {
    match k
    case AnyDigit => IsDigit(c)
    case DigitIn(lo, hi) => lo <= c <= hi
    case Exactly(x) => c == x
  }

  /** The alternatives of each directive's group, in the order the regex tries
      them (`_strptime.TimeRE`). */
  function Alternatives(d: Directive): seq<seq<CharClass>> {
    match d
    case Year => [[AnyDigit, AnyDigit, AnyDigit, AnyDigit]]
    case Month => [[Exactly('1'), DigitIn('0', '2')], [Exactly('0'), DigitIn('1', '9')], [DigitIn('1', '9')]]
    case Day => [[Exactly('3'), DigitIn('0', '1')], [DigitIn('1', '2'), AnyDigit], [Exactly('0'), DigitIn('1', '9')],
                 [DigitIn('1', '9')], [Exactly(' '), DigitIn('1', '9')]]
    case Hour => [[Exactly('2'), DigitIn('0', '3')], [DigitIn('0', '1'), AnyDigit], [AnyDigit]]
    case Minute => [[DigitIn('0', '5'), AnyDigit], [AnyDigit]]
    case Second => [[Exactly('6'), DigitIn('0', '1')], [DigitIn('0', '5'), AnyDigit], [AnyDigit]]
  }

  predicate Fits(alt: seq<CharClass>, s: string, i: nat) {
    i + |alt| <= |s| && forall k :: 0 <= k < |alt| ==> InClass(s[i + k], alt[k])
  }

  datatype Capture = Capture(d: Directive, text: string)

  /** A successful match: the groups' texts and the position it stopped at. */
  datatype Found = Found(captures: seq<Capture>, end: nat)

  /** Length of the whitespace run starting at `i`. */
  function SpaceRun(s: string, i: nat): (k: nat)
    requires i <= |s|
    ensures i + k <= |s|
    decreases |s| - i
  {
    if i < |s| && IsSpace(s[i]) then 1 + SpaceRun(s, i + 1) else 0
  }

  /** The first match of `f` at position `i` in backtracking order. */
  function Match(f: Format, s: string, i: nat): (r: Option<Found>)
    requires i <= |s|
    ensures r.Some? ==> i <= r.value.end <= |s|
    ensures r.Some? ==> forall k :: 0 <= k < |r.value.captures| ==> Group(r.value.captures[k].d) in f
    decreases |f|, 1, 0
  {
    if f == [] then Some(Found([], i))
    else match f[0]
      case Lit(c) => if i < |s| && s[i] == c then Match(f[1..], s, i + 1) else None
      case Blank => MatchBlank(f[1..], s, i, SpaceRun(s, i))
      case Group(d) => MatchGroup(d, Alternatives(d), f[1..], s, i)
  }

  /** `\s+` followed by `rest`: the longest run first, then shorter ones. */
  function MatchBlank(rest: Format, s: string, i: nat, k: nat): (r: Option<Found>)
    requires i + k <= |s|
    ensures r.Some? ==> i <= r.value.end <= |s|
    ensures r.Some? ==> forall j :: 0 <= j < |r.value.captures| ==> Group(r.value.captures[j].d) in rest
    decreases |rest| + 1, 0, k
  {
    if k == 0 then None
    else match Match(rest, s, i + k)
      case Some(found) => Some(found)
      case None => MatchBlank(rest, s, i, k - 1)
  }

  /** A directive's alternation followed by `rest`: each alternative in turn. */
  function MatchGroup(d: Directive, alts: seq<seq<CharClass>>, rest: Format, s: string, i: nat): (r: Option<Found>)
    requires i <= |s|
    ensures r.Some? ==> i <= r.value.end <= |s|
    ensures r.Some? ==> forall j :: 0 <= j < |r.value.captures| ==>
                          r.value.captures[j].d == d || Group(r.value.captures[j].d) in rest
    decreases |rest| + 1, 0, |alts|
  {
    if alts == [] then None
    else if Fits(alts[0], s, i) then
      match Match(rest, s, i + |alts[0]|)
      case Some(found) => Some(Found([Capture(d, s[i..i + |alts[0]|])] + found.captures, found.end))
      case None => MatchGroup(d, alts[1..], rest, s, i)
    else MatchGroup(d, alts[1..], rest, s, i)
  }

  /** The number a captured group denotes. A capture is digits, or a blank and
      one digit (the ` [1-9]` alternative of `%d`), which `int()` skips. */
  function CaptureValue(t: string): nat
    decreases |t|
  {
    if t == [] then 0
    else if IsDigit(t[|t| - 1]) then CaptureValue(t[..|t| - 1]) * 10 + (t[|t| - 1] as int - '0' as int)
    else CaptureValue(t[..|t| - 1])
  }

  /** The value captured for `d`, or `default` when the format has no `d`. */
  function Lookup(caps: seq<Capture>, d: Directive, default: nat): nat {
    if caps == [] then default
    else if caps[0].d == d then CaptureValue(caps[0].text)
    else Lookup(caps[1..], d, default)
  }

  /** `datetime(year, month, day, hour, minute, second)` from the captures,
      with `_strptime`'s defaults for directives the format lacks. */
  function Build(caps: seq<Capture>): (r: Option<DateTime>)
    ensures r.Some? ==> ValidDateTime(r.value)
  {
    var t := DateTime(Date(Lookup(caps, Year, 1900), Lookup(caps, Month, 1), Lookup(caps, Day, 1)),
                      Lookup(caps, Hour, 0), Lookup(caps, Minute, 0), Lookup(caps, Second, 0));
    if ValidDateTime(t) then Some(t) else None
  }

  /** `datetime.strptime(s, f)`; `None` where it raises `ValueError`. */
  function Parse(f: Format, s: string): (r: Option<DateTime>)
    ensures r.Some? ==> ValidDateTime(r.value)
  {
    match Match(f, s, 0)
    case None => None
    case Some(found) => if found.end != |s| then None else Build(found.captures)
  }

  /** A directive the format lacks takes its default. */
  lemma {:induction false} LookupAbsent(caps: seq<Capture>, d: Directive, default: nat)
    requires forall k :: 0 <= k < |caps| ==> caps[k].d != d
    ensures Lookup(caps, d, default) == default
  {
    if caps != [] {
      LookupAbsent(caps[1..], d, default);
    }
  }

  /** A format without `%H`, `%M` and `%S` always yields a midnight. */
  lemma DateOnly(f: Format, s: string)
    requires Group(Hour) !in f && Group(Minute) !in f && Group(Second) !in f
    ensures Parse(f, s).Some? ==> Parse(f, s).value == Midnight(Parse(f, s).value.date)
  {
    var m := Match(f, s, 0);
    if m.Some? {
      LookupAbsent(m.value.captures, Hour, 0);
      LookupAbsent(m.value.captures, Minute, 0);
      LookupAbsent(m.value.captures, Second, 0);
    }
  }

  // ---------------------------------------------------------------- the formats

  /** `'%d.%m.%Y'` */
  const DayMonthYear: Format := [Group(Day), Lit('.'), Group(Month), Lit('.'), Group(Year)]
  /** `'%Y年%m月%d日'` */
  const ChineseDate: Format := [Group(Year), Lit('年'), Group(Month), Lit('月'), Group(Day), Lit('日')]
  /** `'%Y-%m-%d'` */
  const IsoDate: Format := [Group(Year), Lit('-'), Group(Month), Lit('-'), Group(Day)]
  /** `'%Y-%m-%d %H:%M:%S'` */
  const IsoDateTime: Format := [Group(Year), Lit('-'), Group(Month), Lit('-'), Group(Day), Blank,
                                Group(Hour), Lit(':'), Group(Minute), Lit(':'), Group(Second)]

  /** Trying formats in order and keeping the first that parses (the loops of
      `parse_date` and `calculate_remaining_time`). */
  function FirstParse(formats: seq<Format>, s: string): (r: Option<DateTime>)
    ensures r.Some? ==> exists k :: 0 <= k < |formats| && Parse(formats[k], s) == r
                          && forall j :: 0 <= j < k ==> Parse(formats[j], s).None?
    ensures r.None? <==> forall j :: 0 <= j < |formats| ==> Parse(formats[j], s).None?
  {
    if formats == [] then None
    else if Parse(formats[0], s).Some? then Parse(formats[0], s)
    else
      var r := FirstParse(formats[1..], s);
      assert forall j :: 1 <= j < |formats| ==> formats[j] == formats[1..][j - 1];
      r
  }

  /** The same search written as the scripts write it: a loop over the
      formats that returns on the first success. */
  method ParseFirst(formats: seq<Format>, s: string) returns (r: Option<DateTime>)
    ensures r == FirstParse(formats, s)
  {
    for i := 0 to |formats|
      invariant forall j :: 0 <= j < i ==> Parse(formats[j], s).None?
    {
      var attempt := Parse(formats[i], s);
      if attempt.Some? {
        FirstParseIs(formats, s, i);
        return attempt;
      }
    }
    return None;
  }

  lemma {:induction false} FirstParseIs(formats: seq<Format>, s: string, i: nat)
    requires i < |formats| && Parse(formats[i], s).Some?
    requires forall j :: 0 <= j < i ==> Parse(formats[j], s).None?
    ensures FirstParse(formats, s) == Parse(formats[i], s)
  {
    if i > 0 {
      assert Parse(formats[0], s).None?;
      assert formats[1..][i - 1] == formats[i];
      forall j | 0 <= j < i - 1
        ensures Parse(formats[1..][j], s).None?
      {
        assert formats[1..][j] == formats[j + 1];
      }
      FirstParseIs(formats[1..], s, i - 1);
    }
  }

  // ---------------------------------------------------------------- rendering

  function Pad2(n: nat): (r: string)
    requires n < 100
    ensures |r| == 2 && AllDigits(r)
  {
    [DigitChar(n / 10), DigitChar(n % 10)]
  }

  function Pad4(n: nat): (r: string)
    requires n < 10000
    ensures |r| == 4 && AllDigits(r)
  {
    [DigitChar(n / 1000), DigitChar(n / 100 % 10), DigitChar(n / 10 % 10), DigitChar(n % 10)]
  }

  /** `d.strftime('%Y-%m-%d')`. */
  function FormatIso(d: Date): string
    requires ValidDate(d)
  {
    Pad4(d.year) + "-" + Pad2(d.month) + "-" + Pad2(d.day)
  }

  /** `d.strftime('%d.%m.%Y')`. */
  function FormatDayMonthYear(d: Date): string
    requires ValidDate(d)
  {
    Pad2(d.day) + "." + Pad2(d.month) + "." + Pad4(d.year)
  }

  // ---------------------------------------------------------------- round trips

  lemma CaptureValuePad2(n: nat)
    requires n < 100
    ensures CaptureValue(Pad2(n)) == n
  {
    var t := Pad2(n);
    assert t[..1][..0] == [];
    assert CaptureValue(t[..1]) == n / 10;
  }

  lemma CaptureValuePad4(n: nat)
    requires n < 10000
    ensures CaptureValue(Pad4(n)) == n
  {
    var t := Pad4(n);
    assert t[..1][..0] == [];
    assert t[..2][..1] == t[..1] && t[..3][..2] == t[..2];
    assert CaptureValue(t[..1]) == n / 1000;
    assert CaptureValue(t[..2]) == n / 100;
    assert CaptureValue(t[..3]) == n / 10;
  }

  /** A two-digit month or day written with a leading zero is taken by one of
      the two-character alternatives, whatever follows it. */
  lemma GroupTwoDigits(d: Directive, v: nat, rest: Format, s: string, i: nat)
    requires (d == Month && 1 <= v <= 12) || (d == Day && 1 <= v <= 31)
    requires i + 2 <= |s| && s[i..i + 2] == Pad2(v)
    requires Match(rest, s, i + 2).Some?
    ensures MatchGroup(d, Alternatives(d), rest, s, i)
         == Some(Found([Capture(d, Pad2(v))] + Match(rest, s, i + 2).value.captures, Match(rest, s, i + 2).value.end))
  {
    assert s[i] == DigitChar(v / 10) && s[i + 1] == DigitChar(v % 10);
    if d == Month {
      GroupMonth(v, rest, s, i);
    } else {
      GroupDay(v, rest, s, i);
    }
  }

  lemma GroupMonth(v: nat, rest: Format, s: string, i: nat)
    requires 1 <= v <= 12
    requires i + 2 <= |s| && s[i..i + 2] == Pad2(v) && s[i] == DigitChar(v / 10) && s[i + 1] == DigitChar(v % 10)
    requires Match(rest, s, i + 2).Some?
    ensures MatchGroup(Month, Alternatives(Month), rest, s, i)
         == Some(Found([Capture(Month, Pad2(v))] + Match(rest, s, i + 2).value.captures, Match(rest, s, i + 2).value.end))
  {
    var alts := Alternatives(Month);
    if v < 10 {
      assert !InClass(s[i + 0], alts[0][0]);
      assert Fits(alts[1], s, i);
      FirstFitting(Month, alts, rest, s, i, 1);
    } else {
      assert Fits(alts[0], s, i);
      FirstFitting(Month, alts, rest, s, i, 0);
    }
  }

  lemma GroupDay(v: nat, rest: Format, s: string, i: nat)
    requires 1 <= v <= 31
    requires i + 2 <= |s| && s[i..i + 2] == Pad2(v) && s[i] == DigitChar(v / 10) && s[i + 1] == DigitChar(v % 10)
    requires Match(rest, s, i + 2).Some?
    ensures MatchGroup(Day, Alternatives(Day), rest, s, i)
         == Some(Found([Capture(Day, Pad2(v))] + Match(rest, s, i + 2).value.captures, Match(rest, s, i + 2).value.end))
  {
    var alts := Alternatives(Day);
    if v >= 30 {
      assert Fits(alts[0], s, i);
      FirstFitting(Day, alts, rest, s, i, 0);
    } else if v >= 10 {
      assert !InClass(s[i + 0], alts[0][0]);
      assert Fits(alts[1], s, i);
      FirstFitting(Day, alts, rest, s, i, 1);
    } else {
      assert !InClass(s[i + 0], alts[0][0]);
      assert !InClass(s[i + 0], alts[1][0]);
      assert Fits(alts[2], s, i);
      FirstFitting(Day, alts, rest, s, i, 2);
    }
  }

  /** The group takes the first alternative that fits and lets the rest of
      the format match after it. */
  lemma {:induction false} FirstFitting(d: Directive, alts: seq<seq<CharClass>>, rest: Format, s: string, i: nat, n: nat)
    requires n < |alts| && Fits(alts[n], s, i) && Match(rest, s, i + |alts[n]|).Some?
    requires forall k :: 0 <= k < n ==> !Fits(alts[k], s, i)
    decreases n
    ensures var found := Match(rest, s, i + |alts[n]|).value;
      MatchGroup(d, alts, rest, s, i) == Some(Found([Capture(d, s[i..i + |alts[n]|])] + found.captures, found.end))
  {
    if n > 0 {
      assert alts[1..][n - 1] == alts[n];
      assert forall k :: 0 <= k < n - 1 ==> alts[1..][k] == alts[k + 1];
      FirstFitting(d, alts[1..], rest, s, i, n - 1);
    }
  }

  lemma GroupFourDigits(v: nat, rest: Format, s: string, i: nat)
    requires v < 10000
    requires i + 4 <= |s| && s[i..i + 4] == Pad4(v)
    requires Match(rest, s, i + 4).Some?
    ensures MatchGroup(Year, Alternatives(Year), rest, s, i)
         == Some(Found([Capture(Year, Pad4(v))] + Match(rest, s, i + 4).value.captures, Match(rest, s, i + 4).value.end))
  {
    assert s[i] == s[i..i + 4][0] && s[i + 1] == s[i..i + 4][1];
    assert s[i + 2] == s[i..i + 4][2] && s[i + 3] == s[i..i + 4][3];
    assert Fits(Alternatives(Year)[0], s, i);
  }

  /** A literal piece consumes exactly its own character. */
  lemma MatchLit(c: char, rest: Format, s: string, i: nat)
    requires i < |s| && s[i] == c
    ensures Match([Lit(c)] + rest, s, i) == Match(rest, s, i + 1)
  {
    assert ([Lit(c)] + rest)[1..] == rest;
  }

  lemma MatchGroupHead(d: Directive, rest: Format, s: string, i: nat)
    requires i <= |s|
    ensures Match([Group(d)] + rest, s, i) == MatchGroup(d, Alternatives(d), rest, s, i)
  {
    assert ([Group(d)] + rest)[1..] == rest;
  }

  lemma LookupThree(caps: seq<Capture>, d: Directive, default: nat)
    requires |caps| == 3
    ensures Lookup(caps, d, default)
         == if caps[0].d == d then CaptureValue(caps[0].text)
            else if caps[1].d == d then CaptureValue(caps[1].text)
            else if caps[2].d == d then CaptureValue(caps[2].text)
            else default
  {
    var t1 := caps[1..];
    var t2 := t1[1..];
    assert t1[0] == caps[1] && t2[0] == caps[2] && t2[1..] == [];
    assert Lookup(t2[1..], d, default) == default;
    assert Lookup(t2, d, default) == if caps[2].d == d then CaptureValue(caps[2].text) else default;
    assert Lookup(t1, d, default) == if caps[1].d == d then CaptureValue(caps[1].text) else Lookup(t2, d, default);
  }

  /** The three captures of a `%Y`/`%m`/`%d` match, in either order the
      formats use, become that date at midnight. */
  lemma BuildDate(d: Date, caps: seq<Capture>)
    requires ValidDate(d)
    requires caps == [Capture(Year, Pad4(d.year)), Capture(Month, Pad2(d.month)), Capture(Day, Pad2(d.day))]
          || caps == [Capture(Day, Pad2(d.day)), Capture(Month, Pad2(d.month)), Capture(Year, Pad4(d.year))]
    ensures Build(caps) == Some(Midnight(d))
  {
    CaptureValuePad2(d.day);
    CaptureValuePad2(d.month);
    CaptureValuePad4(d.year);
    LookupThree(caps, Year, 1900);
    LookupThree(caps, Month, 1);
    LookupThree(caps, Day, 1);
    LookupThree(caps, Hour, 0);
    LookupThree(caps, Minute, 0);
    LookupThree(caps, Second, 0);
  }

  /** `strptime(d.strftime('%Y-%m-%d'), '%Y-%m-%d')` is `d` at midnight. */
  lemma IsoRoundTrip(d: Date)
    requires ValidDate(d)
    ensures Parse(IsoDate, FormatIso(d)) == Some(Midnight(d))
  {
    var s := FormatIso(d);
    assert s[8..10] == Pad2(d.day) && s[5..7] == Pad2(d.month) && s[0..4] == Pad4(d.year);
    assert s[4] == '-' && s[7] == '-';
    var caps := IsoMatch(s, d);
    BuildDate(d, caps);
  }

  lemma IsoMatch(s: string, d: Date) returns (caps: seq<Capture>)
    requires ValidDate(d) && |s| == 10
    requires s[0..4] == Pad4(d.year) && s[4] == '-' && s[5..7] == Pad2(d.month) && s[7] == '-' && s[8..10] == Pad2(d.day)
    ensures caps == [Capture(Year, Pad4(d.year)), Capture(Month, Pad2(d.month)), Capture(Day, Pad2(d.day))]
    ensures Match(IsoDate, s, 0) == Some(Found(caps, 10))
  {
    var c1 := IsoMonthDay(s, d.month, d.day);
    var tail: Format := [Lit('-'), Group(Month), Lit('-'), Group(Day)];
    caps := [Capture(Year, Pad4(d.year))] + c1;
    FourDigitStep(d.year, tail, s, 0, c1, 10);
    assert [Group(Year)] + tail == IsoDate;
  }

  /** The `-%m-%d` part of the ISO format, from position 4 on. */
  lemma IsoMonthDay(s: string, month: nat, day: nat) returns (caps: seq<Capture>)
    requires 1 <= month <= 12 && 1 <= day <= 31 && |s| == 10
    requires s[4] == '-' && s[5..7] == Pad2(month) && s[7] == '-' && s[8..10] == Pad2(day)
    ensures caps == [Capture(Month, Pad2(month)), Capture(Day, Pad2(day))]
    ensures Match([Lit('-'), Group(Month), Lit('-'), Group(Day)], s, 4) == Some(Found(caps, 10))
  {
    var t0: Format := [];
    assert Match(t0, s, 10) == Some(Found([], 10));
    var c2 := [Capture(Day, Pad2(day))] + [];
    TwoDigitStep(Day, day, t0, s, 8, [], 10);
    var t1 := [Group(Day)] + t0;
    MatchLit('-', t1, s, 7);
    var t2 := [Lit('-')] + t1;
    caps := [Capture(Month, Pad2(month))] + c2;
    TwoDigitStep(Month, month, t2, s, 5, c2, 10);
    var t3 := [Group(Month)] + t2;
    MatchLit('-', t3, s, 4);
    assert [Lit('-')] + t3 == [Lit('-'), Group(Month), Lit('-'), Group(Day)];
  }

  /** One two-digit group in front of a matching rest. */
  lemma TwoDigitStep(d: Directive, v: nat, rest: Format, s: string, i: nat, caps: seq<Capture>, end: nat)
    requires (d == Month && 1 <= v <= 12) || (d == Day && 1 <= v <= 31)
    requires i + 2 <= |s| && s[i..i + 2] == Pad2(v)
    requires Match(rest, s, i + 2) == Some(Found(caps, end))
    ensures Match([Group(d)] + rest, s, i) == Some(Found([Capture(d, Pad2(v))] + caps, end))
  {
    GroupTwoDigits(d, v, rest, s, i);
    MatchGroupHead(d, rest, s, i);
  }

  /** One four-digit year group in front of a matching rest. */
  lemma FourDigitStep(v: nat, rest: Format, s: string, i: nat, caps: seq<Capture>, end: nat)
    requires v < 10000
    requires i + 4 <= |s| && s[i..i + 4] == Pad4(v)
    requires Match(rest, s, i + 4) == Some(Found(caps, end))
    ensures Match([Group(Year)] + rest, s, i) == Some(Found([Capture(Year, Pad4(v))] + caps, end))
  {
    GroupFourDigits(v, rest, s, i);
    MatchGroupHead(Year, rest, s, i);
  }

  /** `strptime(d.strftime('%d.%m.%Y'), '%d.%m.%Y')` is `d` at midnight. */
  lemma DayMonthYearRoundTrip(d: Date)
    requires ValidDate(d)
    ensures Parse(DayMonthYear, FormatDayMonthYear(d)) == Some(Midnight(d))
  {
    var s := FormatDayMonthYear(d);
    assert s[0..2] == Pad2(d.day) && s[3..5] == Pad2(d.month) && s[6..10] == Pad4(d.year);
    assert s[2] == '.' && s[5] == '.';
    var caps := DayMonthYearMatch(s, d);
    BuildDate(d, caps);
  }

  lemma DayMonthYearMatch(s: string, d: Date) returns (caps: seq<Capture>)
    requires ValidDate(d) && |s| == 10
    requires s[0..2] == Pad2(d.day) && s[2] == '.' && s[3..5] == Pad2(d.month) && s[5] == '.' && s[6..10] == Pad4(d.year)
    ensures caps == [Capture(Day, Pad2(d.day)), Capture(Month, Pad2(d.month)), Capture(Year, Pad4(d.year))]
    ensures Match(DayMonthYear, s, 0) == Some(Found(caps, 10))
  {
    var t0: Format := [];
    assert Match(t0, s, 10) == Some(Found([], 10));
    var c2 := [Capture(Year, Pad4(d.year))] + [];
    FourDigitStep(d.year, t0, s, 6, [], 10);
    var t1 := [Group(Year)] + t0;
    MatchLit('.', t1, s, 5);
    var t2 := [Lit('.')] + t1;
    var c1 := [Capture(Month, Pad2(d.month))] + c2;
    TwoDigitStep(Month, d.month, t2, s, 3, c2, 10);
    var t3 := [Group(Month)] + t2;
    MatchLit('.', t3, s, 2);
    var t4 := [Lit('.')] + t3;
    caps := [Capture(Day, Pad2(d.day))] + c1;
    TwoDigitStep(Day, d.day, t4, s, 0, c1, 10);
    assert [Group(Day)] + t4 == DayMonthYear;
  }
}
