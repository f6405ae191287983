/** The decisions of the KataBump renewal script (scripts/katabump_renew.py)
    that do not depend on the browser: reading the expiry date from a page,
    the days left until it, judging the page the renewal form leads to, and
    the two thresholds that decide whether a notification goes out. */
module KataBump {
  import opened Wrappers
  import opened Text
  import opened Calendar
  import opened Strptime

  // ---------------------------------------------------------------- get_expiry_from_text

  const Unknown := "未知"

  /** `c` matches the lower-case ASCII letter `l` under `re.IGNORECASE`. */
  predicate FoldsTo(c: char, l: char) {
    c == l || c as int + 32 == l as int
  }

  /** `Expiry`, in any mix of cases, starts at `i`. */
  predicate WordAt(s: string, i: nat) {
    i + 6 <= |s| && FoldsTo(s[i], 'e') && FoldsTo(s[i + 1], 'x') && FoldsTo(s[i + 2], 'p')
    && FoldsTo(s[i + 3], 'i') && FoldsTo(s[i + 4], 'r') && FoldsTo(s[i + 5], 'y')
  }

  /** `\d{4}-\d{2}-\d{2}` starts at `j`. */
  predicate DateAt(s: string, j: nat) {
    j + 10 <= |s| && IsDigit(s[j]) && IsDigit(s[j + 1]) && IsDigit(s[j + 2]) && IsDigit(s[j + 3])
    && s[j + 4] == '-' && IsDigit(s[j + 5]) && IsDigit(s[j + 6]) && s[j + 7] == '-'
    && IsDigit(s[j + 8]) && IsDigit(s[j + 9])
  }

  /** A ten-character `YYYY-MM-DD` shape. */
  predicate IsoShaped(t: string) {
    |t| == 10 && DateAt(t, 0)
  }

  /** The first date at or after `j`: the lazy `[\s\S]*?` stops there. */
  function DateFrom(s: string, j: nat): (r: Option<nat>)
    ensures r.Some? ==> j <= r.value && DateAt(s, r.value) && forall k: nat :: j <= k < r.value ==> !DateAt(s, k)
    ensures r.None? <==> forall k: nat :: j <= k ==> !DateAt(s, k)
  {
    var p := (k: nat) => DateAt(s, k);
    assert forall k: nat :: p(k) == DateAt(s, k);
    FirstFrom(j, |s| + 1, p)
  }

  /** Where the date group of a match starting at `i` starts, if one does. */
  function MatchAt(s: string, i: nat): Option<nat> {
    if WordAt(s, i) then DateFrom(s, i + 6) else None
  }

  /** `re.search`: the leftmost start of a match. */
  function SearchExpiry(s: string): (r: Option<nat>)
    ensures r.Some? ==> MatchAt(s, r.value).Some? && forall i: nat :: i < r.value ==> MatchAt(s, i).None?
    ensures r.None? <==> forall i: nat :: MatchAt(s, i).None?
  {
    var p := (i: nat) => MatchAt(s, i).Some?;
    assert forall i: nat :: p(i) == MatchAt(s, i).Some?;
    FirstFrom(0, |s| + 1, p)
  }

  /** `get_expiry_from_text`: the date after the first `Expiry` that has a
      date somewhere after it; none when no `Expiry` is followed by a date. */
  function ExpiryFromText(s: string): (r: Option<string>)
    ensures r.Some? ==> IsoShaped(r.value)
    ensures r.None? <==> forall i: nat, j: nat :: WordAt(s, i) && i + 6 <= j ==> !DateAt(s, j)
  {
    match SearchExpiry(s)
    case None =>
      forall i: nat, j: nat | WordAt(s, i) && i + 6 <= j ensures !DateAt(s, j) {
        assert MatchAt(s, i).None?;
      }
      None
    case Some(i) =>
      var j := MatchAt(s, i).value;
      var t := s[j..j + 10];
      assert forall k :: 0 <= k < 10 ==> t[k] == s[j + k];
      Some(t)
  }

  /** `get_expiry_from_text(text) or '未知'`: the placeholder exactly when no
      date was found, the date text otherwise. */
  function ExpiryOr(s: string): (r: string)
    ensures r == Unknown <==> ExpiryFromText(s).None?
    ensures r != Unknown ==> IsoShaped(r) && ExpiryFromText(s) == Some(r)
  {
    match ExpiryFromText(s)
    case Some(t) => t
    case None => Unknown
  }

  /** A page showing `Expiry: <date>` (in any case) with no earlier
      `Expiry` yields that date, whatever follows. */
  lemma ExpiryShown(pre: string, word: string, d: Date, post: string)
    requires ValidDate(d) && |word| == 6 && WordAt(word, 0)
    requires forall k: nat :: !WordAt(pre, k)
    ensures ExpiryFromText(pre + word + ": " + FormatIso(d) + post) == Some(FormatIso(d))
  {
    var s := pre + word + ": " + FormatIso(d) + post;
    var i := |pre|;
    ExpiryLayout(pre, word, d, post);
    DateFromIs(s, i + 6, i + 8);
    forall k: nat | k < i ensures MatchAt(s, k).None? {
      NoWordBefore(pre, word, ": " + FormatIso(d) + post, k);
    }
    SearchExpiryIs(s, i);
  }

  /** Where the word, the separator and the date stand on such a page. */
  lemma ExpiryLayout(pre: string, word: string, d: Date, post: string)
    requires ValidDate(d) && |word| == 6 && WordAt(word, 0)
    ensures var s, i := pre + word + ": " + FormatIso(d) + post, |pre|;
            WordAt(s, i) && s[i + 6] == ':' && s[i + 7] == ' ' && DateAt(s, i + 8)
            && s[i + 8..i + 18] == FormatIso(d)
  {
    var s := pre + word + ": " + FormatIso(d) + post;
    var i := |pre|;
    forall k | 0 <= k < 6 ensures s[i + k] == word[k] {
    }
    var t := FormatIso(d);
    forall k | 0 <= k < 10 ensures s[i + 8 + k] == t[k] {
    }
    IsoShapedText(d);
    assert s[i + 8..i + 18] == t;
  }

  /** No `Expiry` starts inside `pre` once `word` follows it. */
  lemma NoWordBefore(pre: string, word: string, rest: string, k: nat)
    requires |word| == 6 && WordAt(word, 0) && k < |pre|
    requires forall j: nat :: !WordAt(pre, j)
    ensures !WordAt(pre + word + rest, k)
  {
    var s := pre + word + rest;
    if k + 6 <= |pre| {
      assert !WordAt(pre, k);
      assert s[k] == pre[k] && s[k + 1] == pre[k + 1] && s[k + 2] == pre[k + 2];
      assert s[k + 3] == pre[k + 3] && s[k + 4] == pre[k + 4] && s[k + 5] == pre[k + 5];
    } else {
      // the `y` of an `Expiry` at `k` would fall on one of `Expir`
      assert s[k + 5] == word[k + 5 - |pre|];
    }
  }

  /** `FormatIso` renders the `YYYY-MM-DD` shape. */
  lemma IsoShapedText(d: Date)
    requires ValidDate(d)
    ensures IsoShaped(FormatIso(d))
  {
    var t := FormatIso(d);
    assert t[0..4] == Pad4(d.year) && t[5..7] == Pad2(d.month) && t[8..10] == Pad2(d.day);
  }

  lemma DateFromIs(s: string, j: nat, k: nat)
    requires j <= k && DateAt(s, k) && forall m: nat :: j <= m < k ==> !DateAt(s, m)
    ensures DateFrom(s, j) == Some(k)
  {
  }

  lemma SearchExpiryIs(s: string, i: nat)
    requires MatchAt(s, i).Some? && forall k: nat :: k < i ==> MatchAt(s, k).None?
    ensures SearchExpiry(s) == Some(i)
  {
  }

  // ---------------------------------------------------------------- days_until

  /** `days_until`: whole days from today's midnight to the date, `None`
      when `strptime(.., '%Y-%m-%d')` rejects the text. */
  function DaysUntil(dateText: string, now: Moment): (r: Option<int>)
    requires ValidMoment(now)
    ensures r.None? <==> Parse(IsoDate, dateText).None?
    ensures r.Some? ==> r.value == Ordinal(Parse(IsoDate, dateText).value.date) - Ordinal(now.at.date)
  {
    match Parse(IsoDate, dateText)
    case None => None
    case Some(expiry) =>
      DateOnly(IsoDate, dateText);
      var today := Midnight(now.at.date);
      Some((Seconds(expiry) - Seconds(today)) / 86400)
  }

  /** The days left until a rendered date are the distance in day numbers. */
  lemma DaysUntilDate(d: Date, now: Moment)
    requires ValidDate(d) && ValidMoment(now)
    ensures DaysUntil(FormatIso(d), now) == Some(Ordinal(d) - Ordinal(now.at.date))
  {
    IsoRoundTrip(d);
  }

  /** A later expiry leaves more days. */
  lemma DaysUntilOrder(a: Date, b: Date, now: Moment)
    requires ValidDate(a) && ValidDate(b) && ValidMoment(now) && DateBefore(a, b)
    ensures DaysUntil(FormatIso(a), now).Some? && DaysUntil(FormatIso(b), now).Some?
    ensures DaysUntil(FormatIso(a), now).value < DaysUntil(FormatIso(b), now).value
  {
    DaysUntilDate(a, now);
    DaysUntilDate(b, now);
    OrdinalOrder(a, b);
  }

  /** An unknown expiry leaves no count of days. */
  lemma DaysUntilUnknown(now: Moment)
    requires ValidMoment(now)
    ensures DaysUntil(Unknown, now).None?
  {
    var alts := Alternatives(Year);
    assert !Fits(alts[0], Unknown, 0) && alts[1..] == [];
    assert MatchGroup(Year, alts, IsoDate[1..], Unknown, 0).None?;
    assert Match(IsoDate, Unknown, 0).None?;
  }

  // ---------------------------------------------------------------- the error parameter

  const UnknownError := "未知错误"

  /** `error=` followed by at least one character other than `&` starts at `i`:
      where `re.search(r'error=([^&]+)', url)` can match. */
  predicate ErrorAt(url: string, i: nat) {
    OccursAt(url, "error=", i) && i + 6 < |url| && url[i + 6] != '&'
  }

  predicate NotAmp(c: char) { c != '&' }

  /** The group of that search: the run of non-`&` characters after the
      leftmost such `error=`; `未知错误` without one. */
  function ErrorParam(url: string): (r: string)
    ensures (forall i: nat :: !ErrorAt(url, i)) ==> r == UnknownError
    ensures (exists i: nat :: ErrorAt(url, i)) ==> r != [] && '&' !in r
    ensures ErrorStart(url).Some? ==>
              var e := ErrorStart(url).value + 6 + |r|;
              e <= |url| && url[ErrorStart(url).value + 6..e] == r && (e == |url| || url[e] == '&')
  {
    match ErrorStart(url)
    case None => UnknownError
    case Some(i) =>
      var k := RunEnd(url, i + 6, NotAmp);
      var group := url[i + 6..k];
      assert forall j :: 0 <= j < |group| ==> NotAmp(group[j]);
      group
  }

  /** Where the leftmost `error=` with a non-empty value starts. */
  function ErrorStart(url: string): (r: Option<nat>)
    ensures r.Some? ==> ErrorAt(url, r.value) && forall i: nat :: i < r.value ==> !ErrorAt(url, i)
    ensures r.None? <==> forall i: nat :: !ErrorAt(url, i)
  {
    var p := (i: nat) => ErrorAt(url, i);
    assert forall i: nat :: p(i) == ErrorAt(url, i);
    FirstFrom(0, |url| + 1, p)
  }

  /** `...error=<msg>` where `msg` has no `&` and is followed by the end or
      an `&`, with no earlier `error=`, reports `msg`. */
  lemma ErrorShown(pre: string, msg: string, post: string)
    requires !Contains(pre, "error=") && msg != [] && '&' !in msg && (post == [] || post[0] == '&')
    ensures ErrorParam(pre + "error=" + msg + post) == msg
  {
    var url := pre + "error=" + msg + post;
    var i := |pre|;
    ErrorFirstAt(pre, msg, post);
    MessageRun(pre, msg, post);
    ErrorParamAt(url, i);
  }

  /** The search of such a URL starts right after `pre`. */
  lemma ErrorFirstAt(pre: string, msg: string, post: string)
    requires !Contains(pre, "error=") && msg != [] && '&' !in msg
    ensures ErrorStart(pre + "error=" + msg + post) == Some(|pre|)
  {
    var url := pre + "error=" + msg + post;
    var i := |pre|;
    assert url[i..i + 6] == "error=";
    assert url[i + 6] == msg[0];
    NoErrorBefore(pre, msg + post);
    assert url == pre + "error=" + (msg + post);
    ErrorStartIs(url, i);
  }

  /** After `error=` the run of non-`&` characters is exactly `msg`. */
  lemma MessageRun(pre: string, msg: string, post: string)
    requires '&' !in msg && (post == [] || post[0] == '&')
    ensures var url, i := pre + "error=" + msg + post, |pre|;
            RunEnd(url, i + 6, NotAmp) == i + 6 + |msg| && url[i + 6..i + 6 + |msg|] == msg
  {
    var url := pre + "error=" + msg + post;
    var i := |pre|;
    var e := i + 6 + |msg|;
    forall j | i + 6 <= j < e ensures NotAmp(url[j]) {
      assert url[j] == msg[j - i - 6];
    }
    if post != [] {
      assert url[e] == post[0];
    }
    RunEndIs(url, i + 6, e, NotAmp);
    assert url[i + 6..e] == msg;
  }

  /** The message is the run after the `error=` the search found. */
  lemma ErrorParamAt(url: string, i: nat)
    requires ErrorStart(url) == Some(i)
    ensures ErrorParam(url) == url[i + 6..RunEnd(url, i + 6, NotAmp)]
  {
  }

  /** No `error=` starts inside `pre` once `error=` follows it. */
  lemma NoErrorBefore(pre: string, rest: string)
    requires !Contains(pre, "error=")
    ensures forall j: nat :: j < |pre| ==> !ErrorAt(pre + "error=" + rest, j)
  {
    var url := pre + "error=" + rest;
    var i := |pre|;
    forall j: nat | j < i ensures !ErrorAt(url, j) {
      if j + 6 <= i {
        assert !OccursAt(pre, "error=", j);
        assert url[j..j + 6] == pre[j..j + 6];
      } else if j + 6 <= |url| {
        // the `=` of an `error=` at `j` would fall on one of `error`
        assert url[j..j + 6][5] == url[j + 5] == "error="[j + 5 - i];
      }
    }
  }

  lemma ErrorStartIs(url: string, i: nat)
    requires ErrorAt(url, i) && forall j: nat :: j < i ==> !ErrorAt(url, j)
    ensures ErrorStart(url) == Some(i)
  {
  }

  /** Without `error=` in the URL the message is `未知错误`. */
  lemma ErrorMissing(url: string)
    requires !Contains(url, "error=")
    ensures ErrorParam(url) == UnknownError
  {
    forall i: nat | true ensures !ErrorAt(url, i) {
      if i <= |url| {
        assert !OccursAt(url, "error=", i);
      }
    }
  }

  // ---------------------------------------------------------------- string order of dates

  /** Over a common length, the order of two concatenations is decided by
      the first parts, then by the second. */
  lemma {:induction false} BelowAppend(a: string, s: string, b: string, t: string)
    requires |a| == |b|
    decreases |a|
    ensures Below(a + s, b + t) <==> Below(a, b) || (a == b && Below(s, t))
  {
    if a == [] {
      assert a + s == s && b + t == t;
    } else {
      assert (a + s)[0] == a[0] && (a + s)[1..] == a[1..] + s;
      assert (b + t)[0] == b[0] && (b + t)[1..] == b[1..] + t;
      BelowAppend(a[1..], s, b[1..], t);
      if a[0] == b[0] && a[1..] == b[1..] {
        assert a == [a[0]] + a[1..] && b == [b[0]] + b[1..];
      }
      if a == b {
        assert a[0] == b[0] && a[1..] == b[1..];
      }
    }
  }

  lemma {:induction false} BelowIrreflexive(s: string)
    decreases |s|
    ensures !Below(s, s)
  {
    if s != [] {
      BelowIrreflexive(s[1..]);
    }
  }

  lemma DigitBelow(p: nat, q: nat)
    requires p < 10 && q < 10
    ensures Below([DigitChar(p)], [DigitChar(q)]) <==> p < q
    ensures [DigitChar(p)] == [DigitChar(q)] <==> p == q
  {
    assert [DigitChar(p)][1..] == [] && [DigitChar(q)][1..] == [];
    if [DigitChar(p)] == [DigitChar(q)] {
      assert DigitChar(p) == [DigitChar(p)][0];
    }
  }

  /** Two-digit texts compare as their numbers. */
  lemma Pad2Below(x: nat, y: nat)
    requires x < 100 && y < 100
    ensures Below(Pad2(x), Pad2(y)) <==> x < y
    ensures Pad2(x) == Pad2(y) <==> x == y
  {
    assert Pad2(x) == [DigitChar(x / 10)] + [DigitChar(x % 10)];
    assert Pad2(y) == [DigitChar(y / 10)] + [DigitChar(y % 10)];
    BelowAppend([DigitChar(x / 10)], [DigitChar(x % 10)], [DigitChar(y / 10)], [DigitChar(y % 10)]);
    DigitBelow(x / 10, y / 10);
    DigitBelow(x % 10, y % 10);
    if Pad2(x) == Pad2(y) {
      assert Pad2(x)[0] == Pad2(y)[0] && Pad2(x)[1] == Pad2(y)[1];
    }
  }

  lemma Pad4Split(x: nat)
    requires x < 10000
    ensures Pad4(x) == Pad2(x / 100) + Pad2(x % 100)
  {
    DecimalDigits(x);
    assert Pad2(x / 100) + Pad2(x % 100)
        == [DigitChar(x / 100 / 10), DigitChar(x / 100 % 10), DigitChar(x % 100 / 10), DigitChar(x % 100 % 10)];
  }

  lemma DecimalDigits(x: nat)
    ensures x / 100 / 10 == x / 1000
    ensures x % 100 / 10 == x / 10 % 10
    ensures x % 100 % 10 == x % 10
  {
    ThousandsDigit(x);
    TensDigit(x);
  }

  lemma ThousandsDigit(x: nat)
    ensures x / 100 / 10 == x / 1000
  {
    var h, r1 := x / 100, x % 100;
    var q, r2 := h / 10, h % 10;
    assert x == 1000 * q + (100 * r2 + r1) && 0 <= 100 * r2 + r1 < 1000;
  }

  lemma TensDigit(x: nat)
    ensures x % 100 / 10 == x / 10 % 10
    ensures x % 100 % 10 == x % 10
  {
    var t, u := x / 10, x % 10;
    var t2, t1 := t / 10, t % 10;
    DivMod100(x, t2, 10 * t1 + u);
    DivMod10(10 * t1 + u, t1, u);
  }

  /** Quotient and remainder by 100 are unique. */
  lemma DivMod100(x: nat, q: nat, r: nat)
    requires x == 100 * q + r && r < 100
    ensures x / 100 == q && x % 100 == r
  {
  }

  /** Quotient and remainder by 10 are unique. */
  lemma DivMod10(x: nat, q: nat, r: nat)
    requires x == 10 * q + r && r < 10
    ensures x / 10 == q && x % 10 == r
  {
  }

  /** Four-digit texts compare as their numbers. */
  lemma Pad4Below(x: nat, y: nat)
    requires x < 10000 && y < 10000
    ensures Below(Pad4(x), Pad4(y)) <==> x < y
    ensures Pad4(x) == Pad4(y) <==> x == y
  {
    Pad4Split(x);
    Pad4Split(y);
    BelowAppend(Pad2(x / 100), Pad2(x % 100), Pad2(y / 100), Pad2(y % 100));
    Pad2Below(x / 100, y / 100);
    Pad2Below(x % 100, y % 100);
    if Pad4(x) == Pad4(y) {
      assert Pad4(x)[..2] == Pad2(x / 100) && Pad4(y)[..2] == Pad2(y / 100);
      assert Pad4(x)[2..] == Pad2(x % 100) && Pad4(y)[2..] == Pad2(y % 100);
    }
  }

  /** `YYYY-MM-DD` texts compare as the dates: Python's `<` on two rendered
      dates is calendar order. */
  lemma IsoBelow(a: Date, b: Date)
    requires ValidDate(a) && ValidDate(b)
    ensures Below(FormatIso(a), FormatIso(b)) <==> DateBefore(a, b)
  {
    var ta := "-" + (Pad2(a.month) + ("-" + Pad2(a.day)));
    var tb := "-" + (Pad2(b.month) + ("-" + Pad2(b.day)));
    assert FormatIso(a) == Pad4(a.year) + ta;
    assert FormatIso(b) == Pad4(b.year) + tb;
    BelowAppend(Pad4(a.year), ta, Pad4(b.year), tb);
    Pad4Below(a.year, b.year);
    BelowAppend("-", Pad2(a.month) + ("-" + Pad2(a.day)), "-", Pad2(b.month) + ("-" + Pad2(b.day)));
    BelowIrreflexive("-");
    BelowAppend(Pad2(a.month), "-" + Pad2(a.day), Pad2(b.month), "-" + Pad2(b.day));
    Pad2Below(a.month, b.month);
    BelowAppend("-", Pad2(a.day), "-", Pad2(b.day));
    Pad2Below(a.day, b.day);
  }

  /** Distinct dates render differently. */
  lemma IsoInjective(a: Date, b: Date)
    requires ValidDate(a) && ValidDate(b)
    ensures FormatIso(a) == FormatIso(b) <==> a == b
  {
    if FormatIso(a) == FormatIso(b) {
      assert FormatIso(a)[..4] == Pad4(a.year) && FormatIso(b)[..4] == Pad4(b.year);
      assert FormatIso(a)[5..7] == Pad2(a.month) && FormatIso(b)[5..7] == Pad2(b.month);
      assert FormatIso(a)[8..] == Pad2(a.day) && FormatIso(b)[8..] == Pad2(b.day);
      Pad4Below(a.year, b.year);
      Pad2Below(a.month, b.month);
      Pad2Below(a.day, b.day);
    }
  }

  // ---------------------------------------------------------------- the result of the renewal

  /** The test of the last branch as the script writes it:
      `new_expiry != old_expiry and new_expiry > old_expiry`. */
  predicate FallbackAsWritten(oldExpiry: string, newExpiry: string) {
    newExpiry != oldExpiry && Below(oldExpiry, newExpiry)
  }

  /** On two rendered dates the test as written is calendar order. */
  lemma FallbackAsWrittenDates(a: Date, b: Date)
    requires ValidDate(a) && ValidDate(b)
    ensures FallbackAsWritten(FormatIso(a), FormatIso(b)) <==> DateBefore(a, b)
  {
    IsoBelow(a, b);
    IsoInjective(a, b);
    if DateBefore(a, b) {
      assert a != b;
    }
  }

  /** Any date text is below the placeholder `未知`: a digit comes before
      U+672A. */
  lemma DatedBeforeUnknown(oldExpiry: string)
    requires IsoShaped(oldExpiry)
    ensures FallbackAsWritten(oldExpiry, Unknown)
  {
    assert oldExpiry[0] < Unknown[0];
  }

  /** The test as intended: a date was found after reloading and it is later
      than the one before. */
  predicate FallbackSucceeded(oldExpiry: string, newExpiry: string) {
    IsoShaped(newExpiry) && newExpiry != oldExpiry && Below(oldExpiry, newExpiry)
  }

  /** For rendered dates the test is calendar order, and without a new date
      it fails. */
  lemma FallbackChronological(a: Date, b: Date)
    requires ValidDate(a) && ValidDate(b)
    ensures FallbackSucceeded(FormatIso(a), FormatIso(b)) <==> DateBefore(a, b)
    ensures !FallbackSucceeded(FormatIso(a), Unknown)
  {
    IsoBelow(a, b);
    IsoInjective(a, b);
    IsoShapedText(b);
    if DateBefore(a, b) {
      assert a != b;
    }
  }

  /** How the script judges the page after submitting the form. */
  datatype Verdict = Succeeded(newExpiry: string) | Rejected(error: string) | Unsure(newExpiry: string)

  /** The success test of the first branch. */
  predicate ShowsSuccess(url: string, content: string) {
    Contains(url, "renew=success") || Contains(Lower(content), "success")
  }

  /** The result classification, once the fallback test has been applied to
      the expiry `newExpiry` of the reloaded page (`later`): the success test
      comes first, then an `error` anywhere in the lower-cased URL, then the
      fallback test. */
  function Classify(url: string, content: string, newExpiry: string, later: bool): (r: Verdict)
    ensures ShowsSuccess(url, content) ==> r == Succeeded(ExpiryOr(content))
    ensures !ShowsSuccess(url, content) && Contains(Lower(url), "error") ==> r == Rejected(ErrorParam(url))
    ensures r.Rejected? <==> !ShowsSuccess(url, content) && Contains(Lower(url), "error")
    ensures r.Rejected? ==> r.error == ErrorParam(url)
    ensures !ShowsSuccess(url, content) && !Contains(Lower(url), "error") ==>
              r == (if later then Succeeded(newExpiry) else Unsure(newExpiry))
    ensures r.Succeeded? && !ShowsSuccess(url, content) ==> later && r.newExpiry == newExpiry
    ensures r.Unsure? <==> !ShowsSuccess(url, content) && !Contains(Lower(url), "error") && !later
    ensures r.Unsure? ==> r.newExpiry == newExpiry
  {
    if ShowsSuccess(url, content) then Succeeded(ExpiryOr(content))
    else if Contains(Lower(url), "error") then Rejected(ErrorParam(url))
    else if later then Succeeded(newExpiry) else Unsure(newExpiry)
  }

  /** How the script judges the page after submitting the form, with the
      comparison of the last branch as written. */
  function Judge(url: string, content: string, reloaded: string, oldExpiry: string): (r: Verdict)
    ensures ShowsSuccess(url, content) ==> r == Succeeded(ExpiryOr(content))
    ensures !ShowsSuccess(url, content) && Contains(Lower(url), "error") ==> r == Rejected(ErrorParam(url))
    ensures r.Rejected? ==> !ShowsSuccess(url, content) && Contains(Lower(url), "error")
    ensures !ShowsSuccess(url, content) && !Contains(Lower(url), "error") ==>
              r == (if FallbackAsWritten(oldExpiry, ExpiryOr(reloaded))
                    then Succeeded(ExpiryOr(reloaded)) else Unsure(ExpiryOr(reloaded)))
    ensures r.Succeeded? && !ShowsSuccess(url, content) ==>
              r.newExpiry == ExpiryOr(reloaded) && FallbackAsWritten(oldExpiry, r.newExpiry)
    ensures r.Unsure? ==> !ShowsSuccess(url, content) && !Contains(Lower(url), "error")
                          && r.newExpiry == ExpiryOr(reloaded) && !FallbackAsWritten(oldExpiry, r.newExpiry)
  {
    var newExpiry := ExpiryOr(reloaded);
    Classify(url, content, newExpiry, FallbackAsWritten(oldExpiry, newExpiry))
  }

  /** The same judgement with the intended fallback test: a renewal is seen
      only when the reloaded page shows a later date. */
  function JudgeIntended(url: string, content: string, reloaded: string, oldExpiry: string): (r: Verdict)
    ensures ShowsSuccess(url, content) ==> r == Succeeded(ExpiryOr(content))
    ensures !ShowsSuccess(url, content) && Contains(Lower(url), "error") ==> r == Rejected(ErrorParam(url))
    ensures r.Rejected? ==> !ShowsSuccess(url, content) && Contains(Lower(url), "error")
    ensures !ShowsSuccess(url, content) && !Contains(Lower(url), "error") ==>
              r == (if FallbackSucceeded(oldExpiry, ExpiryOr(reloaded))
                    then Succeeded(ExpiryOr(reloaded)) else Unsure(ExpiryOr(reloaded)))
    ensures r.Succeeded? && !ShowsSuccess(url, content) ==>
              r.newExpiry == ExpiryOr(reloaded) && FallbackSucceeded(oldExpiry, r.newExpiry)
    ensures r.Unsure? ==> !ShowsSuccess(url, content) && !Contains(Lower(url), "error")
                          && r.newExpiry == ExpiryOr(reloaded) && !FallbackSucceeded(oldExpiry, r.newExpiry)
  {
    var newExpiry := ExpiryOr(reloaded);
    Classify(url, content, newExpiry, FallbackSucceeded(oldExpiry, newExpiry))
  }

  /** The two judgements differ exactly when the reloaded page shows no date
      and the old expiry is below `未知`; the script then reports a renewal
      where the intended test stays unsure. */
  lemma JudgesDiffer(url: string, content: string, reloaded: string, oldExpiry: string)
    ensures Judge(url, content, reloaded, oldExpiry) != JudgeIntended(url, content, reloaded, oldExpiry) <==>
              !ShowsSuccess(url, content) && !Contains(Lower(url), "error")
              && ExpiryFromText(reloaded).None? && FallbackAsWritten(oldExpiry, Unknown)
    ensures Judge(url, content, reloaded, oldExpiry) != JudgeIntended(url, content, reloaded, oldExpiry) ==>
              Judge(url, content, reloaded, oldExpiry) == Succeeded(Unknown)
              && JudgeIntended(url, content, reloaded, oldExpiry) == Unsure(Unknown)
  {
    var newExpiry := ExpiryOr(reloaded);
    assert !IsoShaped(Unknown);
    assert FallbackSucceeded(oldExpiry, newExpiry) <==>
             ExpiryFromText(reloaded).Some? && FallbackAsWritten(oldExpiry, newExpiry);
  }

  /** With a dated old expiry and a reloaded page without a date, the script
      reports a renewal and the intended test does not. */
  lemma MissingReloadDiffers(url: string, content: string, reloaded: string, oldExpiry: string)
    requires IsoShaped(oldExpiry) && ExpiryFromText(reloaded).None?
    requires !ShowsSuccess(url, content) && !Contains(Lower(url), "error")
    ensures Judge(url, content, reloaded, oldExpiry) == Succeeded(Unknown)
    ensures JudgeIntended(url, content, reloaded, oldExpiry) == Unsure(Unknown)
  {
    DatedBeforeUnknown(oldExpiry);
    JudgesDiffer(url, content, reloaded, oldExpiry);
  }

  /** `renew=success` in the URL decides, whatever error it also mentions. */
  lemma SuccessBeforeError(url: string, content: string, reloaded: string, oldExpiry: string)
    requires Contains(url, "renew=success")
    ensures Judge(url, content, reloaded, oldExpiry).Succeeded?
    ensures JudgeIntended(url, content, reloaded, oldExpiry).Succeeded?
  {
  }

  // ---------------------------------------------------------------- the notifications

  /** `days is not None and days <= limit`. */
  predicate Within(days: Option<int>, limit: int) {
    days.Some? && days.value <= limit
  }

  /** What `run` ends with once the renew form is open. */
  datatype Report =
    | ManualRenewal(expiry: string, days: int)   // captcha unsolved, expiry near: photo notification
    | NotYet(remaining: Option<int>)             // captcha unsolved, expiry not near: log only
    | Renewed(oldExpiry: string, newExpiry: string)
    | RenewFailed(error: string)
    | CheckStatus(newExpiry: string)             // result unclear, expiry near: photo notification
    | StatusUnknown(newExpiry: string)           // result unclear, expiry not near: log only

  /** The part of `run` after the server page is open. `captchaCleared`
      tells whether the form could be submitted (no Turnstile, or a token
      from it or from Capsolver); `url`, `content` and `reloaded` are what
      the browser showed after submitting. The result is judged with the
      intended fallback test (`JudgeIntended`). */
  function Run(serverPage: string, now: Moment, captchaCleared: bool,
               url: string, content: string, reloaded: string): (r: Report)
    requires ValidMoment(now)
    ensures var days := DaysUntil(ExpiryOr(serverPage), now);
            && (r.ManualRenewal? <==> !captchaCleared && Within(days, 3))
            && (r.ManualRenewal? ==> ExpiryFromText(serverPage).Some? && r.expiry == ExpiryOr(serverPage)
                                     && days == Some(r.days) && r.days <= 3)
            && (r.NotYet? <==> !captchaCleared && !Within(days, 3))
            && (r.NotYet? ==> r.remaining == days)
    ensures var v := JudgeIntended(url, content, reloaded, ExpiryOr(serverPage));
            && (r.Renewed? <==> captchaCleared && v.Succeeded?)
            && (r.Renewed? ==> r.oldExpiry == ExpiryOr(serverPage) && r.newExpiry == v.newExpiry)
            && (r.RenewFailed? <==> captchaCleared && v.Rejected?)
            && (r.RenewFailed? ==> r.error == ErrorParam(url))
    ensures var days := DaysUntil(ExpiryOr(serverPage), now);
            var v := JudgeIntended(url, content, reloaded, ExpiryOr(serverPage));
            && (r.CheckStatus? <==> captchaCleared && Within(days, 2) && v.Unsure?)
            && (r.StatusUnknown? <==> captchaCleared && !Within(days, 2) && v.Unsure?)
            && (r.CheckStatus? || r.StatusUnknown? ==> r.newExpiry == ExpiryOr(reloaded))
  {
    var oldExpiry := ExpiryOr(serverPage);
    var days := DaysUntil(oldExpiry, now);
    DaysUntilUnknown(now);
    if !captchaCleared then
      if Within(days, 3) then ManualRenewal(oldExpiry, days.value) else NotYet(days)
    else match JudgeIntended(url, content, reloaded, oldExpiry)
      case Succeeded(newExpiry) => Renewed(oldExpiry, newExpiry)
      case Rejected(error) => RenewFailed(error)
      case Unsure(newExpiry) => if Within(days, 2) then CheckStatus(newExpiry) else StatusUnknown(newExpiry)
  }

  /** A page showing `Expiry: <d>` asks for a manual renewal when the
      captcha stays unsolved exactly when `d` is at most three days away. */
  lemma ManualRenewalDue(pre: string, d: Date, post: string, now: Moment, rest: (string, string, string))
    requires ValidDate(d) && ValidMoment(now)
    requires forall k: nat :: !WordAt(pre, k)
    ensures Run(pre + "Expiry" + ": " + FormatIso(d) + post, now, false, rest.0, rest.1, rest.2)
              == if Ordinal(d) - Ordinal(now.at.date) <= 3
                 then ManualRenewal(FormatIso(d), Ordinal(d) - Ordinal(now.at.date))
                 else NotYet(Some(Ordinal(d) - Ordinal(now.at.date)))
  {
    ExpiryShown(pre, "Expiry", d, post);
    DaysUntilDate(d, now);
  }
}
