/** The decision logic of the Castle-Host renewal script: reading the cookie
    header, finding the expiry date on the server page, classifying the
    answer of the `/buy_months/` endpoint, deciding whether to renew at all
    and judging an uncertain result by the expiry date. The browser, the
    network and the notifications are left out; what they deliver (page
    text, the captured response body, the clock) comes in as parameters. */
module CastleHost {
  import opened Wrappers
  import opened Text
  import opened JsonValues
  import opened Calendar
  import opened Strptime

  // ---------------------------------------------------------------- cookies

  datatype Cookie = Cookie(name: string, value: string, domain: string, path: string)

  const CookieDomain: string := ".castle-host.com"
  const CookiePath: string := "/"

  /** Every cookie the parser builds is for `.castle-host.com`, path `/`,
      with name and value free of surrounding whitespace. */
  predicate WellFormed(c: Cookie) {
    c.domain == CookieDomain && c.path == CookiePath && IsStripped(c.name) && IsStripped(c.value)
  }

  /** The cookie one `;`-separated segment of the header yields, if any:
      the segment is stripped, cut at its first `=`, and both halves are
      stripped again. */
  function CookieOf(segment: string): (r: Option<Cookie>)
    ensures r.Some? <==> '=' in Strip(segment)
    ensures r.Some? ==> WellFormed(r.value) && '=' !in r.value.name
  {
    var part := Strip(segment);
    if part == [] then None
    else match SplitOnce(part, '=')
      case None => None
      case Some((before, after)) =>
        StripKeeps(before, '=');
        Some(Cookie(Strip(before), Strip(after), CookieDomain, CookiePath))
  }

  /** Whatever stands before the first `=` of the stripped segment is the
      name and everything after it the value, both stripped. */
  lemma CookieOfSplit(segment: string, before: string, after: string)
    requires Strip(segment) == before + "=" + after && '=' !in before
    ensures CookieOf(segment) == Some(Cookie(Strip(before), Strip(after), CookieDomain, CookiePath))
  {
    var part := Strip(segment);
    assert part[|before|] == '=';
    var (b, a) := SplitOnce(part, '=').value;
    FirstSeparator(b, a, before, after, '=');
  }

  /** The cookies of the segments, in order (the list `parse_cookie_string`
      appends to). */
  function CookiesOf(segments: seq<string>): (r: seq<Cookie>)
    ensures |r| <= |segments|
  {
    if segments == [] then []
    else CookiesOf(segments[..|segments| - 1]) + CookieList(segments[|segments| - 1])
  }

  /** `CookieOf` as a list of at most one cookie. */
  function CookieList(segment: string): (r: seq<Cookie>)
    ensures |r| <= 1
    ensures r != [] <==> '=' in Strip(segment)
    ensures r != [] ==> WellFormed(r[0])
  {
    match CookieOf(segment)
    case Some(c) => [c]
    case None => []
  }

  /** `parse_cookie_string`: split the header at every `;` and keep, in
      order, a cookie for each segment that has an `=`. */
  method ParseCookieString(header: string) returns (cookies: seq<Cookie>)
    ensures cookies == CookiesOf(Split(header, {';'}))
    ensures forall k :: 0 <= k < |cookies| ==> WellFormed(cookies[k])
  {
    var parts := Split(header, {';'});
    cookies := [];
    for i := 0 to |parts|
      invariant cookies == CookiesOf(parts[..i])
    {
      CookiesStep(parts, i);
      var found := CookieOf(parts[i]);
      if found.Some? {
        cookies := cookies + [found.value];
      }
    }
    assert parts[..|parts|] == parts;
    CookiesWellFormed(parts);
  }

  /** Every cookie of the segments is for `.castle-host.com`, path `/`, with
      stripped name and value. */
  lemma {:induction false} CookiesWellFormed(segments: seq<string>)
    decreases |segments|
    ensures forall k :: 0 <= k < |CookiesOf(segments)| ==> WellFormed(CookiesOf(segments)[k])
  {
    if segments != [] {
      var init := segments[..|segments| - 1];
      CookiesWellFormed(init);
      WellFormedAppend(CookiesOf(init), CookieList(segments[|segments| - 1]));
    }
  }

  lemma WellFormedAppend(init: seq<Cookie>, last: seq<Cookie>)
    requires forall k :: 0 <= k < |init| ==> WellFormed(init[k])
    requires |last| <= 1 && (last != [] ==> WellFormed(last[0]))
    ensures forall k :: 0 <= k < |init + last| ==> WellFormed((init + last)[k])
  {
  }

  /** One more segment adds its own cookie, if it has one. */
  lemma CookiesStep(parts: seq<string>, i: nat)
    requires i < |parts|
    ensures CookiesOf(parts[..i + 1]) == CookiesOf(parts[..i]) + CookieList(parts[i])
  {
    assert parts[..i + 1][..i] == parts[..i];
  }

  /** Segments contribute independently and in order: the cookies of two runs
      of segments are the cookies of the first followed by those of the
      second. */
  lemma {:induction false} CookiesConcat(a: seq<string>, b: seq<string>)
    decreases |b|
    ensures CookiesOf(a + b) == CookiesOf(a) + CookiesOf(b)
  {
    if b == [] {
      assert a + b == a;
    } else {
      var b' := b[..|b| - 1];
      LastSplit(b);
      CookiesConcat(a, b');
      CookiesConcatStep(a, b', b[|b| - 1]);
    }
  }

  /** The inductive step of `CookiesConcat`: one more segment at the end. */
  lemma CookiesConcatStep(a: seq<string>, init: seq<string>, segment: string)
    requires CookiesOf(a + init) == CookiesOf(a) + CookiesOf(init)
    ensures CookiesOf(a + (init + [segment])) == CookiesOf(a) + CookiesOf(init + [segment])
  {
    Associative(a, init, [segment]);
    CookiesSnoc(a + init, segment);
    CookiesSnoc(init, segment);
    Associative(CookiesOf(a), CookiesOf(init), CookieList(segment));
  }

  /** The last segment contributes last. */
  lemma CookiesSnoc(init: seq<string>, segment: string)
    ensures CookiesOf(init + [segment]) == CookiesOf(init) + CookieList(segment)
  {
    var segments := init + [segment];
    assert segments[..|segments| - 1] == init;
  }

  /** A segment without `=` (an empty one included) yields nothing; any other
      yields exactly one cookie. */
  lemma CookiesOne(segment: string)
    ensures |CookiesOf([segment])| == if '=' in Strip(segment) then 1 else 0
  {
    assert [segment][..0] == [];
  }

  /** The split is at the first `=` only: a value that itself holds `=` is
      kept whole. */
  lemma CookieKeepsValue(name: string, value: string)
    requires IsStripped(name) && IsStripped(value) && '=' !in name
    ensures CookieOf(name + "=" + value) == Some(Cookie(name, value, CookieDomain, CookiePath))
  {
    var s := name + "=" + value;
    assert IsStripped(s) by {
      if name != [] { assert s[0] == name[0]; }
      if value != [] { assert s[|s| - 1] == value[|value| - 1]; }
    }
    StripStripped(s);
    CookieOfSplit(s, name, value);
    StripStripped(name);
    StripStripped(value);
  }

  /** Two ways of writing a string as `x + [c] + y` with no `c` in `x` agree. */
  lemma FirstSeparator(x: string, y: string, x': string, y': string, c: char)
    requires x + [c] + y == x' + [c] + y' && c !in x && c !in x'
    ensures x == x' && y == y'
  {
    var s := x + [c] + y;
    assert s[|x|] == c && s[|x'|] == c;
    assert forall i :: 0 <= i < |x| ==> s[i] == x[i];
    assert forall i :: 0 <= i < |x'| ==> s[i] == x'[i];
    assert |x| == |x'|;
    assert x == s[..|x|] && x' == s[..|x'|];
    assert y == s[|x| + 1..] && y' == s[|x'| + 1..];
  }

  // ---------------------------------------------------------------- error messages

  /** The `error_type` values of the script. */
  datatype ErrorType =
    | RateLimited | AlreadyRenewed | InsufficientFunds | MaxPeriod | VkRequired | Unknown
    | ButtonDisabled | UnknownResponse | NoButton | Exception

  function ErrorTypeName(e: ErrorType): string {
    match e
    case RateLimited => "rate_limited"
    case AlreadyRenewed => "already_renewed"
    case InsufficientFunds => "insufficient_funds"
    case MaxPeriod => "max_period"
    case VkRequired => "vk_required"
    case Unknown => "unknown"
    case ButtonDisabled => "button_disabled"
    case UnknownResponse => "unknown_response"
    case NoButton => "no_button"
    case Exception => "exception"
  }

  /** One line of the classifier: the lower-case keywords that select a
      type, and the description reported for it. */
  datatype Rule = Rule(kind: ErrorType, keywords: seq<string>, description: string)

  /** The classifier's rules in the order they are tried. */
  const Rules: seq<Rule> := [
    Rule(RateLimited, ["24 час", "24 hour"], "需要等待24小时后才能再次续期"),
    Rule(AlreadyRenewed, ["уже продлен", "already renewed"], "服务器已经续期过了"),
    Rule(InsufficientFunds, ["недостаточно", "insufficient"], "账户余额不足"),
    Rule(MaxPeriod, ["максимальн", "maximum"], "已达到最大续期期限"),
    Rule(VkRequired, ["vk", "вк"], "需要VK群组验证")
  ]

  predicate MentionsAny(text: string, keywords: seq<string>) {
    exists k :: 0 <= k < |keywords| && Contains(text, keywords[k])
  }

  /** The rule fires when one of its keywords occurs in the lower-cased text. */
  predicate Fires(rule: Rule, text: string) {
    MentionsAny(Lower(text), rule.keywords)
  }

  /** The first rule, from position `i` on, that fires. */
  function FirstRule(text: string, i: nat): (r: Option<nat>)
    decreases |Rules| - i
    ensures r.Some? ==> i <= r.value < |Rules| && Fires(Rules[r.value], text)
                        && forall j :: i <= j < r.value ==> !Fires(Rules[j], text)
    ensures r.None? ==> forall j :: i <= j < |Rules| ==> !Fires(Rules[j], text)
  {
    if i >= |Rules| then None
    else if Fires(Rules[i], text) then Some(i)
    else FirstRule(text, i + 1)
  }

  lemma FiresTwo(rule: Rule, text: string)
    requires |rule.keywords| == 2
    ensures Fires(rule, text) <==> Contains(Lower(text), rule.keywords[0]) || Contains(Lower(text), rule.keywords[1])
  {
  }

  /** `analyze_error_message`: the first rule whose keyword occurs in the
      lower-cased message decides the type and the description; when none
      does, the type is `unknown` and the description is the message itself. */
  function AnalyzeErrorMessage(message: string): (r: (ErrorType, string))
    ensures r == match FirstRule(message, 0)
                 case Some(k) => (Rules[k].kind, Rules[k].description)
                 case None => (Unknown, message)
  {
    var low := Lower(message);
    FiresTwo(Rules[0], message);
    FiresTwo(Rules[1], message);
    FiresTwo(Rules[2], message);
    FiresTwo(Rules[3], message);
    FiresTwo(Rules[4], message);
    if Contains(low, "24 час") || Contains(low, "24 hour") then
      (RateLimited, "需要等待24小时后才能再次续期")
    else if Contains(low, "уже продлен") || Contains(low, "already renewed") then
      (AlreadyRenewed, "服务器已经续期过了")
    else if Contains(low, "недостаточно") || Contains(low, "insufficient") then
      assert FirstRule(message, 0) == FirstRule(message, 2);
      (InsufficientFunds, "账户余额不足")
    else if Contains(low, "максимальн") || Contains(low, "maximum") then
      assert FirstRule(message, 0) == FirstRule(message, 2) == FirstRule(message, 3);
      (MaxPeriod, "已达到最大续期期限")
    else if Contains(low, "vk") || Contains(low, "вк") then
      assert FirstRule(message, 0) == FirstRule(message, 2) == FirstRule(message, 4);
      (VkRequired, "需要VK群组验证")
    else
      assert FirstRule(message, 0) == FirstRule(message, 2) == FirstRule(message, 4) == FirstRule(message, 5);
      (Unknown, message)
  }

  /** `unknown` is reported exactly when no keyword of any rule occurs, and
      then the message itself is the description. */
  lemma AnalyzeUnknown(message: string)
    ensures AnalyzeErrorMessage(message).0 == Unknown <==> forall k :: 0 <= k < |Rules| ==> !Fires(Rules[k], message)
    ensures AnalyzeErrorMessage(message).0 == Unknown ==> AnalyzeErrorMessage(message).1 == message
  {
  }

  /** Priority: a rate-limit keyword decides the type whatever else the
      message mentions. */
  lemma RateLimitWins(message: string)
    requires Contains(Lower(message), "24 hour") || Contains(Lower(message), "24 час")
    ensures AnalyzeErrorMessage(message) == (RateLimited, "需要等待24小时后才能再次续期")
  {
    FiresTwo(Rules[0], message);
  }

  /** The classification ignores case: a message and its lower-cased form
      get the same type. */
  lemma AnalyzeIgnoresCase(message: string)
    ensures AnalyzeErrorMessage(Lower(message)).0 == AnalyzeErrorMessage(message).0
  {
    LowerIdempotent(message);
  }

  /** `decode_unicode_error`: text that does not start with a `\u` escape is
      returned as it is; otherwise the escape decoder (`decode`, which the
      model does not define; `None` where it raises) is applied, and on
      failure the text is again returned unchanged. */
  function DecodeUnicodeError(text: string, decode: string -> Option<string>): (r: string)
    ensures !StartsWith(text, "\\u") ==> r == text
    ensures r == text || (StartsWith(text, "\\u") && decode(text) == Some(r))
    ensures StartsWith(text, "\\u") && decode(text).Some? ==> r == decode(text).value
    ensures StartsWith(text, "\\u") && decode(text).None? ==> r == text
  {
    if !StartsWith(text, "\\u") then text
    else match decode(text)
      case Some(decoded) => decoded
      case None => text
  }

  // ---------------------------------------------------------------- dates

  /** The formats `parse_date` tries, in order. */
  const DateFormats: seq<Format> := [DayMonthYear, ChineseDate, IsoDate]

  /** `parse_date`: the first of the three formats that parses the text. */
  method ParseDate(text: string) returns (r: Option<DateTime>)
    ensures r == FirstParse(DateFormats, text)
  {
    r := ParseFirst(DateFormats, text);
  }

  /** None of the three formats has a time of day, so a parsed date is a
      midnight. */
  lemma ParsedDateIsMidnight(text: string)
    ensures FirstParse(DateFormats, text).Some? ==>
              FirstParse(DateFormats, text).value == Midnight(FirstParse(DateFormats, text).value.date)
  {
    DateOnly(DayMonthYear, text);
    DateOnly(ChineseDate, text);
    DateOnly(IsoDate, text);
  }

  /** `(b - a).days` for two datetimes: whole days, rounded down. */
  function DaysDelta(a: DateTime, b: DateTime): int
    requires ValidDateTime(a) && ValidDateTime(b)
  {
    (Seconds(b) - Seconds(a)) / 86400
  }

  /** `calculate_date_difference` as a value: absent when either text is not
      a date, otherwise the number of days from the first date to the
      second. */
  function DateDifference(first: string, second: string): (r: Option<int>)
    ensures r.None? <==> FirstParse(DateFormats, first).None? || FirstParse(DateFormats, second).None?
    ensures r.Some? ==> r.value == Ordinal(FirstParse(DateFormats, second).value.date)
                                 - Ordinal(FirstParse(DateFormats, first).value.date)
  {
    var a := FirstParse(DateFormats, first);
    var b := FirstParse(DateFormats, second);
    if a.Some? && b.Some? then
      ParsedDateIsMidnight(first);
      ParsedDateIsMidnight(second);
      Some(DaysDelta(a.value, b.value))
    else None
  }

  /** `calculate_date_difference`, parsing each text with `ParseDate`. */
  method CalculateDateDifference(first: string, second: string) returns (r: Option<int>)
    ensures r == DateDifference(first, second)
  {
    var a := ParseDate(first);
    var b := ParseDate(second);
    if a.Some? && b.Some? {
      ParsedDateIsMidnight(first);
      ParsedDateIsMidnight(second);
      r := Some(DaysDelta(a.value, b.value));
    } else {
      r := None;
    }
  }

  /** Swapping the two dates negates the difference. */
  lemma DateDifferenceAntisymmetric(first: string, second: string)
    ensures DateDifference(second, first).Some? == DateDifference(first, second).Some?
    ensures DateDifference(first, second).Some? ==>
              DateDifference(second, first).value == -DateDifference(first, second).value
  {
  }

  /** The difference is positive exactly when the second date is the later
      one, and zero exactly when both texts name the same day. */
  lemma DateDifferenceOrder(first: string, second: string)
    requires DateDifference(first, second).Some?
    ensures DateDifference(first, second).value > 0 <==>
              DateBefore(FirstParse(DateFormats, first).value.date, FirstParse(DateFormats, second).value.date)
    ensures DateDifference(first, second).value == 0 <==>
              FirstParse(DateFormats, first).value.date == FirstParse(DateFormats, second).value.date
  {
    OrdinalOrder(FirstParse(DateFormats, first).value.date, FirstParse(DateFormats, second).value.date);
  }

  /** A `DD.MM.YYYY` date, as the panel prints it, parses back to itself. */
  lemma ParseDatePanelFormat(d: Date)
    requires ValidDate(d)
    ensures FirstParse(DateFormats, FormatDayMonthYear(d)) == Some(Midnight(d))
  {
    DayMonthYearRoundTrip(d);
  }

  // ---------------------------------------------------------------- expiry on the page

  /** `\d{2}\.\d{2}\.\d{4}` at position `i`. */
  predicate DottedDateAt(s: string, i: nat) {
    i + 10 <= |s| && IsDigit(s[i]) && IsDigit(s[i + 1]) && s[i + 2] == '.'
    && IsDigit(s[i + 3]) && IsDigit(s[i + 4]) && s[i + 5] == '.'
    && IsDigit(s[i + 6]) && IsDigit(s[i + 7]) && IsDigit(s[i + 8]) && IsDigit(s[i + 9])
  }

  predicate IsDottedDate(s: string) {
    |s| == 10 && DottedDateAt(s, 0)
  }

  lemma DottedDateSlice(s: string, c: nat)
    requires DottedDateAt(s, c)
    ensures IsDottedDate(s[c..c + 10])
  {
    var t := s[c..c + 10];
    assert t[0] == s[c] && t[1] == s[c + 1] && t[2] == s[c + 2] && t[3] == s[c + 3] && t[4] == s[c + 4];
    assert t[5] == s[c + 5] && t[6] == s[c + 6] && t[7] == s[c + 7] && t[8] == s[c + 8] && t[9] == s[c + 9];
  }

  /** Characters the regex `\b` counts as part of a word (letters, digits,
      `_`; of the non-ASCII letters, the Cyrillic and CJK blocks). */
  predicate IsWordChar(c: char) {
    IsDigit(c) || ('a' <= c <= 'z') || ('A' <= c <= 'Z') || c == '_'
    || ('\U{0400}' <= c <= '\U{04FF}') || ('\U{4E00}' <= c <= '\U{9FFF}')
  }

  /** The four expiry patterns of `extract_expiry_date`. */
  datatype ExpiryPattern =
    | After(prefix: string)  // `<prefix>(\d{2}\.\d{2}\.\d{4})`
    | BeforeParenthesis      // `(\d{2}\.\d{2}\.\d{4})\s*\([^)]*\)`
    | Standalone             // `\b(\d{2}\.\d{2}\.\d{4})\b`

  const ExpiryPatterns: seq<ExpiryPattern> := [
    After("Сервер действует до "), After("Оплачено до "), BeforeParenthesis, Standalone
  ]

  /** The pattern matches with its date group starting at `c`. Each pattern
      starts a fixed distance before its group, so the leftmost match is the
      one with the leftmost group. */
  predicate CapturedAt(p: ExpiryPattern, s: string, c: nat) {
    DottedDateAt(s, c) &&
    match p
    case After(prefix) => |prefix| <= c && OccursAt(s, prefix, c - |prefix|)
    case BeforeParenthesis =>
      var j := c + 10 + SpaceRun(s, c + 10);
      j < |s| && s[j] == '(' && ')' in s[j + 1..]
    case Standalone => (c == 0 || !IsWordChar(s[c - 1])) && (c + 10 == |s| || !IsWordChar(s[c + 10]))
  }

  /** `re.search(p, s)`: the group position of the leftmost match. */
  function FindDate(p: ExpiryPattern, s: string): (r: Option<nat>)
    ensures r.Some? ==> CapturedAt(p, s, r.value) && forall c: nat :: c < r.value ==> !CapturedAt(p, s, c)
    ensures r.None? <==> forall c: nat :: !CapturedAt(p, s, c)
  {
    var at := (c: nat) => CapturedAt(p, s, c);
    assert forall c: nat :: at(c) == CapturedAt(p, s, c);
    assert forall c: nat :: c > |s| ==> !CapturedAt(p, s, c);
    FirstFrom(0, |s| + 1, at)
  }

  /** The first pattern, from position `i` on, that matches somewhere. */
  function FirstPattern(s: string, i: nat): (r: Option<nat>)
    decreases |ExpiryPatterns| - i
    ensures r.Some? ==> i <= r.value < |ExpiryPatterns| && FindDate(ExpiryPatterns[r.value], s).Some?
                        && forall j :: i <= j < r.value ==> FindDate(ExpiryPatterns[j], s).None?
    ensures r.None? ==> forall j :: i <= j < |ExpiryPatterns| ==> FindDate(ExpiryPatterns[j], s).None?
  {
    if i >= |ExpiryPatterns| then None
    else if FindDate(ExpiryPatterns[i], s).Some? then Some(i)
    else FirstPattern(s, i + 1)
  }

  /** The date the first pattern with a match finds: the ten characters of
      its leftmost match's group. */
  function ExpiryIn(s: string): (r: Option<string>)
    ensures r.Some? ==> IsDottedDate(r.value)
    ensures r.None? <==> forall k :: 0 <= k < |ExpiryPatterns| ==> FindDate(ExpiryPatterns[k], s).None?
  {
    match FirstPattern(s, 0)
    case None => None
    case Some(k) =>
      var c := FindDate(ExpiryPatterns[k], s).value;
      DottedDateSlice(s, c);
      Some(s[c..c + 10])
  }

  /** `extract_expiry_date`: the patterns in priority order, the first that
      matches anywhere in the page text wins. */
  method ExtractExpiryDate(bodyText: string) returns (r: Option<string>)
    ensures r == ExpiryIn(bodyText)
  {
    for i := 0 to |ExpiryPatterns|
      invariant forall j :: 0 <= j < i ==> FindDate(ExpiryPatterns[j], bodyText).None?
    {
      var found := FindDate(ExpiryPatterns[i], bodyText);
      if found.Some? {
        FirstPatternIs(bodyText, 0, i);
        var c := found.value;
        return Some(bodyText[c..c + 10]);
      }
    }
    return None;
  }

  lemma {:induction false} FirstPatternIs(s: string, j: nat, i: nat)
    requires j <= i < |ExpiryPatterns| && FindDate(ExpiryPatterns[i], s).Some?
    requires forall k :: j <= k < i ==> FindDate(ExpiryPatterns[k], s).None?
    decreases i - j
    ensures FirstPattern(s, j) == Some(i)
  {
    if j < i {
      FirstPatternIs(s, j + 1, i);
    }
  }

  /** The labelled pattern outranks the others: a page that states
      "Сервер действует до" takes the date after the first such label, even
      when other dates come earlier. */
  lemma LabelFirst(s: string, c: nat)
    requires CapturedAt(ExpiryPatterns[0], s, c)
    ensures exists c': nat :: c' <= c && CapturedAt(ExpiryPatterns[0], s, c')
                              && ExpiryIn(s) == Some(s[c'..c' + 10])
  {
    var f := FindDate(ExpiryPatterns[0], s);
    assert f.Some?;
    LabelledExpiry(s);
    assert f.value <= c;
  }

  /** When the labelled pattern matches, its leftmost group is the expiry. */
  lemma LabelledExpiry(s: string)
    requires FindDate(ExpiryPatterns[0], s).Some?
    ensures var c := FindDate(ExpiryPatterns[0], s).value;
      c + 10 <= |s| && ExpiryIn(s) == Some(s[c..c + 10])
  {
    FirstPatternIs(s, 0, 0);
  }

  /** A page holding no `DD.MM.YYYY` text at all has no expiry date. */
  lemma NoDateNoExpiry(s: string)
    requires forall i: nat :: !DottedDateAt(s, i)
    ensures ExpiryIn(s).None?
  {
  }

  // ---------------------------------------------------------------- the renewal answer

  /** The result dictionary of `perform_renewal`; `success` is `None` when the
      answer is uncertain, and `originalError` is the raw server message. */
  datatype Outcome = Outcome(success: Option<bool>, errorType: Option<ErrorType>, message: string,
                             originalError: Option<string>)

  const Renewed: Outcome := Outcome(Some(true), None, "续期成功", None)

  function Failure(e: ErrorType, message: string): Outcome {
    Outcome(Some(false), Some(e), message, None)
  }

  predicate MentionsError(body: string) {
    Contains(Lower(body), "error") || Contains(Lower(body), "ошибка")
  }

  predicate MentionsSuccess(body: string) {
    Contains(Lower(body), "success") || Contains(Lower(body), "успех")
  }

  /** The verdict the captured API body gives
      (scripts/castle-host_renew.py:293-331), or `None` when it gives none
      and the page has to be consulted. `shown` is `str(body)`,
      which the model does not compute. */
  function ApiVerdict(body: Json, shown: string): (r: Option<Outcome>)
    ensures !Truthy(body) ==> r.None?
    ensures (body.JObj? && Truthy(body)) ==> r.Some?
    ensures body.JObj? && Get(body.fields, "status", JStr("")) == JStr("error")
            && Get(body.fields, "error", JStr("未知错误")).JStr? ==>
              var m := Get(body.fields, "error", JStr("未知错误")).s;
              r == Some(Outcome(Some(false), Some(AnalyzeErrorMessage(m).0), AnalyzeErrorMessage(m).1, Some(m)))
    ensures body.JObj? && Get(body.fields, "status", JStr("")) == JStr("error")
            && !Get(body.fields, "error", JStr("未知错误")).JStr? ==>
              r == Some(Failure(Exception, "'" + TypeName(Get(body.fields, "error", JStr("未知错误")))
                                           + "' object has no attribute 'lower'"))
    ensures body.JObj? && Get(body.fields, "status", JStr("")) in {JStr("success"), JStr("ok")} ==>
              r == Some(Renewed)
    ensures body.JObj? && Truthy(body) && Get(body.fields, "status", JStr("")) !in {JStr("error"), JStr("success"), JStr("ok")} ==>
              && (r.value.success == Some(true) <==>
                    Truthy(Get(body.fields, "success", JNull)) || Truthy(Get(body.fields, "renewed", JNull)))
              && (r.value.success == Some(true) ==> r == Some(Renewed))
              && (r.value.success != Some(true) ==> r == Some(Failure(UnknownResponse, "未知响应: " + shown)))
    ensures body.JStr? && body.s != "" ==>
              (r.Some? <==> MentionsError(body.s) || MentionsSuccess(body.s))
    ensures body.JStr? && MentionsError(body.s) ==>
              r == Some(Failure(AnalyzeErrorMessage(body.s).0, AnalyzeErrorMessage(body.s).1))
    ensures body.JStr? && !MentionsError(body.s) && MentionsSuccess(body.s) ==> r == Some(Renewed)
    ensures (body.JArr? || body.JNum? || body.JBool?) ==> r.None?
  {
    if !Truthy(body) then None
    else match body
      case JObj(fields) =>
        var status := Get(fields, "status", JStr(""));
        if status == JStr("error") then
          match Get(fields, "error", JStr("未知错误"))
          case JStr(m) =>
            var (kind, description) := AnalyzeErrorMessage(m);
            Some(Outcome(Some(false), Some(kind), description, Some(m)))
          case other =>
            // `error_msg.lower()` raises, and the outer handler reports it.
            Some(Failure(Exception, "'" + TypeName(other) + "' object has no attribute 'lower'"))
        else if status == JStr("success") || status == JStr("ok") then Some(Renewed)
        else if Truthy(Get(fields, "success", JNull)) || Truthy(Get(fields, "renewed", JNull)) then Some(Renewed)
        else Some(Failure(UnknownResponse, "未知响应: " + shown))
      case JStr(text) =>
        if MentionsError(text) then
          var (kind, description) := AnalyzeErrorMessage(text);
          Some(Failure(kind, description))
        else if MentionsSuccess(text) then Some(Renewed)
        else None
      case _ => None
  }

  /** A string body naming both an error and a success is a failure: the
      error keywords are checked first. */
  lemma ErrorBeforeSuccess(text: string, shown: string)
    requires MentionsError(text) && MentionsSuccess(text)
    ensures ApiVerdict(JStr(text), shown).Some? && ApiVerdict(JStr(text), shown).value.success == Some(false)
  {
  }

  /** The page check after the API gave no verdict
      (scripts/castle-host_renew.py:333-353): the cool-down notice (matched as written, case-sensitively), then the
      success notice (case-insensitively), else uncertain. */
  function PageVerdict(pageText: string): (r: Outcome)
    ensures Contains(pageText, "24 час") ==> r == Failure(RateLimited, "需要等待24小时后才能再次续期")
    ensures r.success == Some(true) <==> !Contains(pageText, "24 час") && RenewedOnPage(pageText)
    ensures r.success.None? ==> r.errorType == Some(Unknown)
    ensures r.success == Some(true) ==> r == Renewed
    ensures !Contains(pageText, "24 час") && !RenewedOnPage(pageText) ==>
              r == Outcome(None, Some(Unknown), "需要验证到期时间", None)
  {
    if Contains(pageText, "24 час") then Failure(RateLimited, "需要等待24小时后才能再次续期")
    else if RenewedOnPage(pageText) then Renewed
    else Outcome(None, Some(Unknown), "需要验证到期时间", None)
  }

  /** `re.search('Сервер продлен|продлен успешно|успешно продлен', text, re.IGNORECASE)` */
  predicate RenewedOnPage(pageText: string) {
    var low := Lower(pageText);
    Contains(low, "сервер продлен") || Contains(low, "продлен успешно") || Contains(low, "успешно продлен")
  }

  /** What the browser found when it looked for the renew button. */
  datatype ButtonState =
    | Disabled
    | Clicked(body: Option<Json>, shown: string, pageText: string)  // the captured body, if any, and the page after
    | Missing(freePayRan: bool)                                     // whether the `freePay()` fallback ran
    | Raised(text: string)                                          // an exception escaped, with its `str(e)`

  /** `perform_renewal` once the page has been driven. */
  function PerformRenewal(button: ButtonState): (r: Outcome)
    ensures r.success == Some(true) ==> r == Renewed
    ensures r.success == Some(false) ==> r.errorType.Some?
    ensures r.originalError.Some? ==> r.success == Some(false)
    ensures button.Clicked? && (button.body.None? || ApiVerdict(button.body.value, button.shown).None?) ==>
              r == PageVerdict(button.pageText)
    ensures button.Clicked? && button.body.Some? && ApiVerdict(button.body.value, button.shown).Some? ==>
              r == ApiVerdict(button.body.value, button.shown).value
    ensures button.Disabled? ==> r == Failure(ButtonDisabled, "续约按钮已禁用")
    ensures button == Missing(false) ==> r == Failure(NoButton, "未找到续约按钮")
    ensures button == Missing(true) ==> r == Outcome(None, None, "JavaScript调用完成，需要验证", None)
    ensures button.Raised? ==> r == Failure(Exception, button.text)
  {
    match button
    case Disabled => Failure(ButtonDisabled, "续约按钮已禁用")
    case Raised(text) => Failure(Exception, text)
    case Missing(ran) =>
      if ran then Outcome(None, None, "JavaScript调用完成，需要验证", None)
      else Failure(NoButton, "未找到续约按钮")
    case Clicked(body, shown, pageText) =>
      var verdict := if body.Some? then ApiVerdict(body.value, shown) else None;
      match verdict
      case Some(outcome) => outcome
      case None => PageVerdict(pageText)
  }

  // ---------------------------------------------------------------- whether to renew

  /** The script's settings, read from the environment. */
  datatype Settings = Settings(cookies: string, serverId: string, force: bool, threshold: int)

  datatype SettingsError = BadThreshold | NoCookies

  /** The settings part of `main`: the threshold is converted first (a
      malformed one aborts the script), then a blank cookie variable stops
      it. */
  function ReadSettings(env: map<string, string>): (r: Result<Settings, SettingsError>)
    ensures r.Ok? ==> r.value.cookies != [] && IsStripped(r.value.cookies)
    ensures r.Ok? && "RENEW_THRESHOLD" !in env ==> r.value.threshold == 3
    ensures r.Ok? && "SERVER_ID" !in env ==> r.value.serverId == "117954"
    ensures r.Ok? ==> (r.value.force <==> "FORCE_RENEW" in env && Lower(env["FORCE_RENEW"]) == "true")
    ensures r == Err(BadThreshold) <==> "RENEW_THRESHOLD" in env && ParseInt(env["RENEW_THRESHOLD"]).None?
    ensures r == Err(NoCookies) <==>
              ("RENEW_THRESHOLD" !in env || ParseInt(env["RENEW_THRESHOLD"]).Some?)
              && ("CASTLE_COOKIES" !in env || Strip(env["CASTLE_COOKIES"]) == [])
    ensures r.Ok? ==> "CASTLE_COOKIES" in env && r.value.cookies == Strip(env["CASTLE_COOKIES"])
    ensures r.Ok? && "RENEW_THRESHOLD" in env ==> ParseInt(env["RENEW_THRESHOLD"]) == Some(r.value.threshold)
    ensures r.Ok? && "SERVER_ID" in env ==> r.value.serverId == env["SERVER_ID"]
  {
    var cookies := Strip(if "CASTLE_COOKIES" in env then env["CASTLE_COOKIES"] else "");
    var serverId := if "SERVER_ID" in env then env["SERVER_ID"] else "117954";
    var force := Lower(if "FORCE_RENEW" in env then env["FORCE_RENEW"] else "false") == "true";
    DefaultsRead();
    match ParseInt(if "RENEW_THRESHOLD" in env then env["RENEW_THRESHOLD"] else "3")
    case None => Err(BadThreshold)
    case Some(threshold) =>
      if cookies == [] then Err(NoCookies) else Ok(Settings(cookies, serverId, force, threshold))
  }

  /** The script's entry block, which stops on a blank `CASTLE_COOKIES`
      before `main` reads the other settings: there the cookie error comes
      first. */
  function LaunchSettings(env: map<string, string>): (r: Result<Settings, SettingsError>)
    ensures r == Err(NoCookies) <==> "CASTLE_COOKIES" !in env || Strip(env["CASTLE_COOKIES"]) == []
    ensures r == Err(BadThreshold) <==>
              "CASTLE_COOKIES" in env && Strip(env["CASTLE_COOKIES"]) != []
              && "RENEW_THRESHOLD" in env && ParseInt(env["RENEW_THRESHOLD"]).None?
    ensures r.Ok? ==> r == ReadSettings(env)
  {
    if Strip(if "CASTLE_COOKIES" in env then env["CASTLE_COOKIES"] else "") == [] then Err(NoCookies)
    else ReadSettings(env)
  }

  lemma DefaultsRead()
    ensures Lower("false") == "false" && Lower("false") != "true"
    ensures ParseInt("3") == Some(3)
  {
    assert Lower("false")[0] == 'f';
    assert IsStripped("3");
    StripStripped("3");
    assert DigitsValue("3") == 3 by {
      assert "3"[..0] == [];
    }
  }

  /** `(exp_date - datetime.now()).days`: whole days from now until the
      expiry midnight, rounded down. */
  function DaysFromNow(expiry: DateTime, now: Moment): int
    requires ValidDateTime(expiry) && ValidMoment(now)
  {
    (Seconds(expiry) * 1000000 - Micros(now)) / 86400000000
  }

  /** `days_until_expiry` of `extract_server_info`: the decimal text of the
      days left when the expiry parses as `DD.MM.YYYY`, else `"Unknown"`. */
  function DaysUntilExpiry(expiry: Option<string>, now: Moment): (r: string)
    requires ValidMoment(now)
    ensures r == "Unknown" <==> expiry.None? || Parse(DayMonthYear, expiry.value).None?
    ensures r != "Unknown" ==> ParseInt(r) == Some(DaysFromNow(Parse(DayMonthYear, expiry.value).value, now))
  {
    match expiry
    case None => "Unknown"
    case Some(text) =>
      match Parse(DayMonthYear, text)
      case None => "Unknown"
      case Some(t) =>
        var days := DaysFromNow(t, now);
        DaysText(days);
        IntToString(days)
  }

  /** The decimal text of a day count reads back as that count and is never
      the `"Unknown"` marker. */
  lemma DaysText(days: int)
    ensures ParseInt(IntToString(days)) == Some(days)
    ensures IntToString(days) != "Unknown"
  {
    ParseIntRoundTrip(days);
    if days < 0 { assert IntToString(days)[0] == '-'; }
    else { assert IsDigit(IntToString(days)[0]); }
  }

  /** The skip rule of `main`: a days-left text that reads as an integer above
      the threshold, without the force flag, skips the renewal. */
  function ShouldSkip(daysLeft: string, threshold: int, force: bool): (r: bool)
    ensures force ==> !r
    ensures r ==> ParseInt(daysLeft).Some? && ParseInt(daysLeft).value > threshold
  {
    if daysLeft == "Unknown" then false
    else match ParseInt(daysLeft)
      case None => false
      case Some(days) => days > threshold && !force
  }

  /** Renewal is skipped exactly when the expiry parses, more than `threshold`
      whole days remain, and renewal is not forced. */
  lemma SkipIff(expiry: Option<string>, now: Moment, threshold: int, force: bool)
    requires ValidMoment(now)
    ensures ShouldSkip(DaysUntilExpiry(expiry, now), threshold, force) <==>
              !force && expiry.Some? && Parse(DayMonthYear, expiry.value).Some?
              && DaysFromNow(Parse(DayMonthYear, expiry.value).value, now) > threshold
  {
  }

  /** A lower threshold skips at least as often. */
  lemma SkipMonotone(daysLeft: string, low: int, high: int, force: bool)
    requires low <= high && ShouldSkip(daysLeft, high, force)
    ensures ShouldSkip(daysLeft, low, force)
  {
  }

  // ---------------------------------------------------------------- checking by date

  /** `verify_renewal` once the page has been reloaded: the new expiry found
      (if any) and the days it moved, `0` when either date is unusable. */
  function VerifyRenewal(original: string, newExpiry: Option<string>): (r: (Option<string>, int))
    ensures r.0.Some? <==> newExpiry.Some? && newExpiry.value != ""
    ensures r.0.Some? ==> r.0 == newExpiry
    ensures r.1 != 0 ==> r.0.Some? && DateDifference(original, newExpiry.value) == Some(r.1)
    ensures r.1 == (if r.0.Some? && DateDifference(original, newExpiry.value).Some?
                    then DateDifference(original, newExpiry.value).value else 0)
  {
    if newExpiry.None? || newExpiry.value == "" then (None, 0)
    else if original != "" then
      match DateDifference(original, newExpiry.value)
      case Some(days) => (newExpiry, days)
      case None => (newExpiry, 0)
    else
      NothingParsesEmpty();
      assert DateDifference(original, newExpiry.value).None?;
      (newExpiry, 0)
  }

  /** The check `main` makes when the result was uncertain (scripts/castle-host_renew.py:590). */
  predicate UncertainSucceeded(original: string, newExpiry: Option<string>) {
    var (found, days) := VerifyRenewal(original, newExpiry);
    found.Some? && found.value != original && days > 0
  }

  /** An uncertain renewal counts as done exactly when both expiry texts are
      dates and the new one is strictly later; the text comparison adds
      nothing. */
  lemma UncertainSucceededIff(original: string, newExpiry: Option<string>)
    ensures UncertainSucceeded(original, newExpiry) <==>
              newExpiry.Some? && FirstParse(DateFormats, original).Some? && FirstParse(DateFormats, newExpiry.value).Some?
              && DateBefore(FirstParse(DateFormats, original).value.date, FirstParse(DateFormats, newExpiry.value).value.date)
  {
    NothingParsesEmpty();
    if newExpiry.Some? && newExpiry.value != "" && original != "" {
      var t := newExpiry.value;
      assert VerifyRenewal(original, newExpiry).0 == newExpiry;
      match DateDifference(original, t)
      case None =>
        assert VerifyRenewal(original, newExpiry).1 == 0;
      case Some(d) =>
        assert VerifyRenewal(original, newExpiry).1 == d;
        DateDifferenceOrder(original, t);
        if t == original {
          assert d == 0;
        }
    }
  }

  /** The empty text is not a date in any of the formats. */
  lemma NothingParsesEmpty()
    ensures FirstParse(DateFormats, "").None?
  {
    NoGroupInEmpty(Day, Alternatives(Day), DayMonthYear[1..]);
    NoGroupInEmpty(Year, Alternatives(Year), ChineseDate[1..]);
    NoGroupInEmpty(Year, Alternatives(Year), IsoDate[1..]);
    assert Parse(DateFormats[0], "").None? && Parse(DateFormats[1], "").None? && Parse(DateFormats[2], "").None?;
  }

  /** A group needs at least one character. */
  lemma {:induction false} NoGroupInEmpty(d: Directive, alts: seq<seq<CharClass>>, rest: Format)
    requires forall k :: 0 <= k < |alts| ==> alts[k] != []
    ensures MatchGroup(d, alts, rest, "", 0).None?
  {
    if alts != [] {
      NoGroupInEmpty(d, alts[1..], rest);
    }
  }

  // ---------------------------------------------------------------- the run record

  /** The global `renewal_data` record `main` fills in and finally appends to
      the history file. `success.None?` never happens here: the field starts
      out `False`. */
  class RenewalRecord {
    var serverId: string
    var beforeExpiry: string
    var afterExpiry: string
    var renewalTime: string
    var success: bool
    var status: Option<string>   // `None` is Python's `None` (a success has no error type)
    var errorMessage: string

    constructor ()
      ensures serverId == "" && beforeExpiry == "" && afterExpiry == "" && renewalTime == ""
      ensures !success && status == Some("") && errorMessage == ""
    {
      serverId := "";
      beforeExpiry := "";
      afterExpiry := "";
      renewalTime := "";
      success := false;
      status := Some("");
      errorMessage := "";
    }

    /** The start of `main` once the cookies are read: the server id and the
        time of the run (as formatted by `strftime`) are recorded. */
    method Start(server: string, time: string)
      modifies this
      ensures serverId == server && renewalTime == time
      ensures beforeExpiry == old(beforeExpiry) && afterExpiry == old(afterExpiry)
      ensures success == old(success) && status == old(status) && errorMessage == old(errorMessage)
    {
      serverId := server;
      renewalTime := time;
    }

    /** After logging in: the expiry read from the panel (`Unknown` when
        none was found) is recorded as the one before renewal. */
    method RecordOriginal(original: string)
      modifies this
      ensures beforeExpiry == original
      ensures serverId == old(serverId) && afterExpiry == old(afterExpiry) && renewalTime == old(renewalTime)
      ensures success == old(success) && status == old(status) && errorMessage == old(errorMessage)
    {
      beforeExpiry := original;
    }

    /** The handler around the browser session: a raised exception marks the
        run failed with its text (`str(e)`, a parameter). */
    method Fail(message: string)
      modifies this
      ensures !success && errorMessage == message
      ensures serverId == old(serverId) && beforeExpiry == old(beforeExpiry) && afterExpiry == old(afterExpiry)
      ensures renewalTime == old(renewalTime) && status == old(status)
    {
      success := false;
      errorMessage := message;
    }

    /** The skip branch: the expiry stays what it was. */
    method Skip(original: string)
      modifies this
      ensures success && status == Some("skipped") && afterExpiry == original
      ensures serverId == old(serverId) && beforeExpiry == old(beforeExpiry)
      ensures renewalTime == old(renewalTime) && errorMessage == old(errorMessage)
    {
      success := true;
      status := Some("skipped");
      afterExpiry := original;
    }

    /** The three branches of `main` after `perform_renewal`: a confirmed
        success, a confirmed failure, or an uncertain result judged by the
        expiry found on the reloaded page (`newExpiry`). */
    method Conclude(outcome: Outcome, original: string, newExpiry: Option<string>)
      modifies this
      ensures status == (if outcome.errorType.Some? then Some(ErrorTypeName(outcome.errorType.value)) else None)
      ensures outcome.success == Some(true) ==> success && errorMessage == old(errorMessage)
      ensures outcome.success == Some(false) ==> !success && afterExpiry == original && errorMessage == outcome.message
      ensures outcome.success.None? ==> (success <==> UncertainSucceeded(original, newExpiry))
      ensures outcome.success.None? && !success ==> errorMessage == "到期时间未变化"
      ensures outcome.success.None? && success ==> errorMessage == old(errorMessage)
      ensures outcome.success != Some(false) ==>
                afterExpiry == (if VerifyRenewal(original, newExpiry).0.Some? then VerifyRenewal(original, newExpiry).0.value else "Unknown")
      ensures serverId == old(serverId) && beforeExpiry == old(beforeExpiry) && renewalTime == old(renewalTime)
    {
      status := if outcome.errorType.Some? then Some(ErrorTypeName(outcome.errorType.value)) else None;
      if outcome.success == Some(true) {
        var (found, _) := VerifyRenewal(original, newExpiry);
        afterExpiry := if found.Some? then found.value else "Unknown";
        success := true;
      } else if outcome.success == Some(false) {
        success := false;
        afterExpiry := original;
        errorMessage := outcome.message;
      } else {
        var (found, days) := VerifyRenewal(original, newExpiry);
        afterExpiry := if found.Some? then found.value else "Unknown";
        if found.Some? && found.value != original && days > 0 {
          success := true;
        } else {
          success := false;
          errorMessage := "到期时间未变化";
        }
      }
    }
  }
}
