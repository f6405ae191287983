/** The decisions of the Pella renewal script (scripts/pella_renew.py) that do
    not depend on the browser: reading the time left from the server page,
    judging a renewal by it, loading the accounts from the environment, the
    notification text and the aggregation over all accounts. */
module Pella {
  import opened Wrappers
  import opened Text

  // ---------------------------------------------------------------- extract_expiry_days

  const Lead := "Your server expires in"
  const Unextracted := "无法提取"

  /** `\s*(\d+)` followed by `unit`, from `i`. Both runs are greedy and neither
      can hand a character back (a blank is no digit, a digit is not the unit
      letter), so this is the only way the pattern can match there. Gives the
      number and the position after the unit. */
  function Field(s: string, i: nat, unit: char): (r: Option<(nat, nat)>)
    requires i <= |s|
    ensures r.Some? ==> i < r.value.1 <= |s|
  {
    var j := RunEnd(s, i, IsSpace);
    var k := RunEnd(s, j, IsDigit);
    if j < k < |s| && s[k] == unit then
      assert forall t :: 0 <= t < k - j ==> s[j..k][t] == s[j + t];
      Some((DigitsValue(s[j..k]), k + 1))
    else None
  }

  /** The fields `\s*(\d+)u` for the units `u` of `units` one after another
      from `i`: their numbers, in order. */
  function Fields(s: string, i: nat, units: string): (r: Option<seq<nat>>)
    requires i <= |s|
    decreases |units|
    ensures r.Some? ==> |r.value| == |units|
  {
    if units == [] then Some([])
    else match Field(s, i, units[0])
      case None => None
      case Some(f) =>
        match Fields(s, f.1, units[1..])
        case None => None
        case Some(rest) => Some([f.0] + rest)
  }

  /** Days, hours and minutes when `Your server expires in\s*(\d+)D\s*(\d+)H\s*(\d+)M`
      matches at `i`. */
  function FullAt(s: string, i: nat): Option<(nat, nat, nat)>
    requires i <= |s|
  {
    if !OccursAt(s, Lead, i) then None
    else match Fields(s, i + |Lead|, "DHM")
      case None => None
      case Some(ns) => Some((ns[0], ns[1], ns[2]))
  }

  /** Days when the short pattern `Your server expires in\s*(\d+)D` matches at `i`. */
  function DaysAt(s: string, i: nat): Option<nat>
    requires i <= |s|
  {
    if !OccursAt(s, Lead, i) then None
    else match Fields(s, i + |Lead|, "D")
      case None => None
      case Some(ns) => Some(ns[0])
  }

  /** `re.search` with the full pattern: its leftmost match. */
  function SearchFull(s: string): (r: Option<(nat, nat, nat)>)
    ensures r.None? <==> forall i: nat :: i <= |s| ==> FullAt(s, i).None?
    ensures r.Some? ==> exists i: nat :: i <= |s| && FullAt(s, i) == r
                          && forall j: nat :: j < i ==> FullAt(s, j).None?
  {
    var p := (i: nat) => i <= |s| && FullAt(s, i).Some?;
    assert forall j: nat :: p(j) == (j <= |s| && FullAt(s, j).Some?);
    match FirstFrom(0, |s| + 1, p)
    case None => None
    case Some(i) => FullAt(s, i)
  }

  /** `re.search` with the short pattern: its leftmost match. */
  function SearchDays(s: string): (r: Option<nat>)
    ensures r.None? <==> forall i: nat :: i <= |s| ==> DaysAt(s, i).None?
    ensures r.Some? ==> exists i: nat :: i <= |s| && DaysAt(s, i) == r
                          && forall j: nat :: j < i ==> DaysAt(s, j).None?
  {
    var p := (i: nat) => i <= |s| && DaysAt(s, i).Some?;
    assert forall j: nat :: p(j) == (j <= |s| && DaysAt(s, j).Some?);
    match FirstFrom(0, |s| + 1, p)
    case None => None
    case Some(i) => DaysAt(s, i)
  }

  /** The time left in whole minutes. The script counts fractional days,
      `days + hours / 24 + minutes / 1440`; see `MinutesMeasureDays`. */
  function Minutes(days: nat, hours: nat, minutes: nat): nat {
    days * 1440 + hours * 60 + minutes
  }

  function Details(days: nat, hours: nat, minutes: nat): string {
    NatToString(days) + " 天 " + NatToString(hours) + " 小时 " + NatToString(minutes) + " 分钟"
  }

  function DaysDetails(days: nat): string {
    NatToString(days) + " 天"
  }

  /** `extract_expiry_days`, with minutes for days: the full pattern first,
      the days-only pattern next, `("无法提取", -1)` when neither matches. */
  function ExtractExpiryDays(page: string): (r: (string, int))
    ensures r.1 >= -1
    ensures r.1 == -1 <==> forall i: nat :: i <= |page| ==> DaysAt(page, i).None?
    ensures r.1 == -1 ==> r.0 == Unextracted
    ensures SearchFull(page).Some? ==>
              var (d, h, m) := SearchFull(page).value;
              r == (Details(d, h, m), Minutes(d, h, m))
    ensures SearchFull(page).None? && SearchDays(page).Some? ==>
              r == (DaysDetails(SearchDays(page).value), SearchDays(page).value * 1440)
  {
    match SearchFull(page)
    case Some(t) =>
      FullHasDays(page);
      (Details(t.0, t.1, t.2), Minutes(t.0, t.1, t.2))
    case None =>
      match SearchDays(page)
      case Some(d) => (DaysDetails(d), d * 1440)
      case None => (Unextracted, -1)
  }

  /** Where the full pattern matches, so does the short one. */
  lemma FullHasDays(s: string)
    ensures forall i: nat :: i <= |s| && FullAt(s, i).Some? ==> DaysAt(s, i).Some?
  {
  }

  /** A match with none before it is the one `re.search` finds. */
  lemma SearchFullIs(s: string, i: nat)
    requires i <= |s| && FullAt(s, i).Some?
    requires forall j: nat :: j < i ==> FullAt(s, j).None?
    ensures SearchFull(s) == FullAt(s, i)
  {
  }

  lemma SearchDaysIs(s: string, i: nat)
    requires i <= |s| && DaysAt(s, i).Some?
    requires forall j: nat :: j < i ==> DaysAt(s, j).None?
    ensures SearchDays(s) == DaysAt(s, i)
  {
  }

  /** The fractional day count the script computes. */
  function TotalDays(days: nat, hours: nat, minutes: nat): real {
    days as real + hours as real / 24.0 + minutes as real / 1440.0
  }

  /** Minutes measure the same quantity as the script's day count, so
      comparing them compares the day counts. */
  lemma MinutesMeasureDays(d1: nat, h1: nat, m1: nat, d2: nat, h2: nat, m2: nat)
    ensures Minutes(d1, h1, m1) as real == TotalDays(d1, h1, m1) * 1440.0
    ensures Minutes(d1, h1, m1) < Minutes(d2, h2, m2) <==> TotalDays(d1, h1, m1) < TotalDays(d2, h2, m2)
  {
    assert Minutes(d2, h2, m2) as real == TotalDays(d2, h2, m2) * 1440.0;
  }

  /** No match can start where there is no `Y`. */
  lemma NoLeadAfter(s: string, i: nat)
    requires i <= |s| && 'Y' !in s[i..]
    ensures forall j: nat :: i <= j <= |s| ==> !OccursAt(s, Lead, j)
  {
    forall j: nat | i <= j <= |s| ensures !OccursAt(s, Lead, j) {
      if j + |Lead| <= |s| {
        assert s[j..j + |Lead|][0] == s[j] == s[i..][j - i];
      }
    }
  }

  /** One field as the page shows it: a blank, the number and the unit. */
  function FieldText(n: nat, unit: char): string {
    " " + NatToString(n) + [unit]
  }

  /** Fields one after another, as the page shows them. */
  function FieldTexts(ns: seq<nat>, units: string): string
    requires |ns| == |units|
    decreases |units|
  {
    if units == [] then "" else FieldText(ns[0], units[0]) + FieldTexts(ns[1..], units[1..])
  }

  /** `Your server expires in 3D 4H 5M`. */
  function Shown(d: nat, h: nat, m: nat): string {
    Lead + FieldTexts([d, h, m], "DHM")
  }

  /** `Your server expires in 3D`. */
  function ShownDays(d: nat): string {
    Lead + FieldTexts([d], "D")
  }

  /** A field the page shows at `i` reads as its number. */
  lemma FieldOf(s: string, i: nat, n: nat, unit: char)
    requires !IsDigit(unit) && OccursAt(s, FieldText(n, unit), i)
    ensures Field(s, i, unit) == Some((n, i + |FieldText(n, unit)|))
  {
    var t := NatToString(n);
    var k := i + 1 + |t|;
    FieldTextAt(s, i, n, unit);
    FieldIs(s, i, i + 1, k, unit);
    NatToStringValue(n);
  }

  /** The characters of a shown field, one by one. */
  lemma FieldTextAt(s: string, i: nat, n: nat, unit: char)
    requires OccursAt(s, FieldText(n, unit), i)
    ensures var t := NatToString(n);
            && i + 1 + |t| < |s| && s[i] == ' ' && s[i + 1..i + 1 + |t|] == t && s[i + 1 + |t|] == unit
  {
    var t := NatToString(n);
    var f := FieldText(n, unit);
    assert forall j :: i <= j < i + |f| ==> s[j] == f[j - i];
    assert s[i + 1..i + 1 + |t|] == t;
  }

  /** A blank at `i`, digits from `j` to `k` and the unit at `k` make a field. */
  lemma FieldIs(s: string, i: nat, j: nat, k: nat, unit: char)
    requires i < j < k < |s| && j == i + 1 && IsSpace(s[i]) && s[k] == unit && !IsDigit(unit)
    requires AllDigits(s[j..k])
    ensures Field(s, i, unit) == Some((DigitsValue(s[j..k]), k + 1))
  {
    assert s[j] == s[j..k][0];
    RunEndIs(s, i, j, IsSpace);
    assert forall t :: j <= t < k ==> s[t] == s[j..k][t - j];
    RunEndIs(s, j, k, IsDigit);
  }

  /** Where a concatenation occurs, its two parts occur one after the other. */
  lemma OccursSplit(s: string, x: string, y: string, i: nat)
    requires OccursAt(s, x + y, i)
    ensures OccursAt(s, x, i) && OccursAt(s, y, i + |x|)
  {
    assert s[i..i + |x|] == s[i..i + |x + y|][..|x|];
    assert s[i + |x|..i + |x| + |y|] == s[i..i + |x + y|][|x|..];
  }

  /** The positions before `i` hold no match when they hold no `Y`. */
  lemma NoLeadBefore(s: string, i: nat)
    requires i <= |s| && 'Y' !in s[..i]
    ensures forall j: nat :: j < i ==> !OccursAt(s, Lead, j)
  {
    forall j: nat | j < i ensures !OccursAt(s, Lead, j) {
      if j + |Lead| <= |s| {
        assert s[j..j + |Lead|][0] == s[j] == s[..i][j];
      }
    }
  }

  /** Fields shown one after another read as their numbers. */
  lemma {:induction false} FieldsShown(page: string, j: nat, ns: seq<nat>, units: string)
    requires |ns| == |units| && forall k :: 0 <= k < |units| ==> !IsDigit(units[k])
    requires OccursAt(page, FieldTexts(ns, units), j)
    decreases |units|
    ensures Fields(page, j, units) == Some(ns)
  {
    if units != [] {
      var k := FieldHead(page, j, ns, units);
      FieldsShown(page, k, ns[1..], units[1..]);
      FieldsStep(page, j, ns, units, k);
    }
  }

  /** The first of the fields shown reads as its number. */
  lemma FieldHead(page: string, j: nat, ns: seq<nat>, units: string) returns (k: nat)
    requires |ns| == |units| && units != [] && !IsDigit(units[0])
    requires OccursAt(page, FieldTexts(ns, units), j)
    ensures k == j + |FieldText(ns[0], units[0])|
    ensures j <= k <= |page| && Field(page, j, units[0]) == Some((ns[0], k))
    ensures OccursAt(page, FieldTexts(ns[1..], units[1..]), k)
  {
    k := j + |FieldText(ns[0], units[0])|;
    OccursSplit(page, FieldText(ns[0], units[0]), FieldTexts(ns[1..], units[1..]), j);
    FieldOf(page, j, ns[0], units[0]);
  }

  lemma FieldsStep(page: string, j: nat, ns: seq<nat>, units: string, k: nat)
    requires |ns| == |units| && units != [] && j <= |page|
    requires Field(page, j, units[0]) == Some((ns[0], k))
    requires Fields(page, k, units[1..]) == Some(ns[1..])
    ensures Fields(page, j, units) == Some(ns)
  {
    assert ns == [ns[0]] + ns[1..];
  }

  /** A page that shows `Your server expires in 3D 4H 5M`, with no `Y`
      before it, reads as those days, hours and minutes. */
  lemma ExtractFull(page: string, i: nat, d: nat, h: nat, m: nat)
    requires OccursAt(page, Shown(d, h, m), i) && 'Y' !in page[..i]
    ensures ExtractExpiryDays(page) == (Details(d, h, m), Minutes(d, h, m))
  {
    OccursSplit(page, Lead, FieldTexts([d, h, m], "DHM"), i);
    FieldsShown(page, i + |Lead|, [d, h, m], "DHM");
    assert FullAt(page, i) == Some((d, h, m));
    NoLeadBefore(page, i);
    SearchFullIs(page, i);
  }

  /** A page that shows `Your server expires in 3D` with no `Y` anywhere
      else and no blank or digit right after the `D` reads as whole days. */
  lemma ExtractDaysOnly(page: string, i: nat, d: nat)
    requires OccursAt(page, ShownDays(d), i)
    requires 'Y' !in page[..i] && 'Y' !in page[i + 1..]
    requires var e := i + |ShownDays(d)|; e == |page| || (!IsSpace(page[e]) && !IsDigit(page[e]))
    ensures ExtractExpiryDays(page) == (DaysDetails(d), d * 1440)
  {
    DaysOnlyAt(page, i, d);
    NoLeadBefore(page, i);
    NoLeadAfter(page, i + 1);
    OnlyMatchAt(page, i);
    SearchDaysIs(page, i);
  }

  /** Without the lead anywhere but at `i`, no match starts anywhere else. */
  lemma OnlyMatchAt(s: string, i: nat)
    requires i <= |s|
    requires forall j: nat :: j <= |s| && j != i ==> !OccursAt(s, Lead, j)
    ensures forall j: nat :: j <= |s| && j != i ==> FullAt(s, j).None? && DaysAt(s, j).None?
  {
  }

  /** The short text matches the short pattern only. */
  lemma DaysOnlyAt(page: string, i: nat, d: nat)
    requires OccursAt(page, ShownDays(d), i)
    requires var e := i + |ShownDays(d)|; e == |page| || (!IsSpace(page[e]) && !IsDigit(page[e]))
    ensures DaysAt(page, i) == Some(d) && FullAt(page, i).None?
  {
    OccursSplit(page, Lead, FieldTexts([d], "D"), i);
    var e := FieldHead(page, i + |Lead|, [d], "D");
    assert FieldTexts([d], "D") == FieldText(d, 'D') + "";
    assert e == i + |ShownDays(d)|;
    NoFieldAt(page, e, 'H');
    DaysNotFull(page, i + |Lead|, d, e);
  }

  /** No field starts at a character that is neither a blank nor a digit. */
  lemma NoFieldAt(s: string, e: nat, unit: char)
    requires e <= |s| && (e == |s| || (!IsSpace(s[e]) && !IsDigit(s[e])))
    ensures Field(s, e, unit).None?
  {
    RunEndIs(s, e, e, IsSpace);
    RunEndIs(s, e, e, IsDigit);
  }

  /** A days field with no hours field behind it. */
  lemma DaysNotFull(s: string, a: nat, d: nat, e: nat)
    requires a <= |s| && Field(s, a, 'D') == Some((d, e)) && Field(s, e, 'H').None?
    ensures Fields(s, a, "D") == Some([d]) && Fields(s, a, "DHM").None?
  {
    assert "D"[0] == 'D' && "D"[1..] == [];
    assert Fields(s, e, "") == Some([]);
    assert [d] + [] == [d];
    assert "DHM"[0] == 'D' && "DHM"[1..] == "HM" && "HM"[0] == 'H';
    assert Fields(s, e, "HM").None?;
  }

  /** A page with no `Y` at all yields `("无法提取", -1)`. */
  lemma ExtractNothing(page: string)
    requires 'Y' !in page
    ensures ExtractExpiryDays(page) == (Unextracted, -1)
  {
    NoLeadAfter(page, 0);
  }

  // ---------------------------------------------------------------- renew_server and run

  const MissingUrl := "❌ 缺少服务器 URL"
  const NoInitial := "❌ 无法提取初始过期时间"
  const RenewedToday := "⏳ 今日已续期"
  const NoButton := "⏳ 未找到续期按钮"
  const FailedPrefix := "❌ 失败: "

  /** What the browser showed during `renew_server`: the server page's URL,
      the page source before renewing, how many renew links were opened one
      after the other, whether a greyed-out renew link was on the page when
      no open one was, and the page source after the renewals. */
  datatype ServerVisit = ServerVisit(serverUrl: string, initialPage: string, linksOpened: nat, greyedOut: bool, finalPage: string)

  function Renewed(initial: string, final: string): string {
    "✅ 续期成功! " + initial + " -> " + final
  }

  function Unchanged(final: string): string {
    "⚠️ 天数未变化 (" + final + ")"
  }

  /** `renew_server`: `Ok` with the message it returns, `Err` with the
      message of the exception it raises. Without a server URL or an initial
      time left it gives up before touching a renew link; with no link to
      open it reports whether one was greyed out; otherwise it compares the
      time left before and after. */
  function RenewServer(v: ServerVisit): (r: Result<string, string>)
    ensures r.Err? <==> v.serverUrl == [] || ExtractExpiryDays(v.initialPage).1 == -1
    ensures r.Err? ==> r.error == (if v.serverUrl == [] then MissingUrl else NoInitial)
    ensures r.Ok? && v.linksOpened == 0 ==> r.value == (if v.greyedOut then RenewedToday else NoButton)
    ensures r.Ok? && v.linksOpened > 0 && ExtractExpiryDays(v.finalPage).1 > ExtractExpiryDays(v.initialPage).1 ==>
              r.value == Renewed(ExtractExpiryDays(v.initialPage).0, ExtractExpiryDays(v.finalPage).0)
    ensures r.Ok? && v.linksOpened > 0 && ExtractExpiryDays(v.finalPage).1 <= ExtractExpiryDays(v.initialPage).1 ==>
              r.value == Unchanged(ExtractExpiryDays(v.finalPage).0)
  {
    if v.serverUrl == [] then Err(MissingUrl)
    else
      var (initialDetails, initial) := ExtractExpiryDays(v.initialPage);
      if initial == -1 then Err(NoInitial)
      else if v.linksOpened == 0 then Ok(if v.greyedOut then RenewedToday else NoButton)
      else
        var (finalDetails, final) := ExtractExpiryDays(v.finalPage);
        if final > initial then Ok(Renewed(initialDetails, finalDetails)) else Ok(Unchanged(finalDetails))
  }

  /** How far `run` got: stopped by the exception `login` or
      `get_server_url` raised, or on to `renew_server`. */
  datatype Session = Stopped(error: string) | Served(visit: ServerVisit)

  /** `PellaAutoRenew.run`: true with the message of `renew_server` when it
      returns, false with the exception message after `❌ 失败: ` otherwise.
      A renewal that found nothing to do or left the time unchanged still
      counts as a success here. */
  function Run(s: Session): (r: (bool, string))
    ensures r.0 <==> s.Served? && RenewServer(s.visit).Ok?
    ensures r.0 ==> r.1 == RenewServer(s.visit).value
    ensures !r.0 ==> StartsWith(r.1, FailedPrefix)
    ensures s.Stopped? ==> r == (false, FailedPrefix + s.error)
    ensures s.Served? && RenewServer(s.visit).Err? ==> r == (false, FailedPrefix + RenewServer(s.visit).error)
  {
    match s
    case Stopped(e) => (false, FailedPrefix + e)
    case Served(v) =>
      match RenewServer(v)
      case Ok(m) => (true, m)
      case Err(e) => (false, FailedPrefix + e)
  }

  // ---------------------------------------------------------------- send_notification

  /** One entry of `results`: the account's email, whether `run` succeeded
      and its message. */
  datatype Row = Row(email: string, success: bool, result: string)

  /** The symbol in front of a result: ✅ when it mentions 成功, else ⏳ when
      it mentions 已续期, else ❌. */
  function Status(result: string): (r: string)
    ensures r == "✅" <==> Contains(result, "成功")
    ensures r == "⏳" <==> !Contains(result, "成功") && Contains(result, "已续期")
    ensures r == "❌" <==> !Contains(result, "成功") && !Contains(result, "已续期")
  {
    if Contains(result, "成功") then "✅" else if Contains(result, "已续期") then "⏳" else "❌"
  }

  /** The email as shown: its first three characters, then `***@` and the
      text between the first `@` and the next one (`email.split('@')[1]`),
      or `***` alone without an `@`. */
  function Mask(email: string): (r: string)
    ensures StartsWith(r, Take(email, 3))
  {
    var (_, hasAt, rest) := Partition(email, '@');
    if hasAt then Take(email, 3) + "***@" + Partition(rest, '@').0 else Take(email, 3) + "***"
  }

  function Header(accounts: nat): string {
    "🎁 Pella续期通知\n📋 共 " + NatToString(accounts) + " 个账号\n\n"
  }

  /** One line of the message: the symbol, the masked email and the first
      60 characters of the result (all of it when shorter). */
  function Line(row: Row): (r: string)
    ensures var shown := if |row.result| <= 60 then row.result else row.result[..60];
            r == Status(row.result) + " " + Mask(row.email) + ": " + shown + "\n"
  {
    Status(row.result) + " " + Mask(row.email) + ": " + Take(row.result, 60) + "\n"
  }

  /** The lines of the rows, in order. */
  function Lines(rows: seq<Row>): string
    decreases |rows|
  {
    if rows == [] then "" else Lines(rows[..|rows| - 1]) + Line(rows[|rows| - 1])
  }

  /** The text posted to Telegram, if anything is posted: nothing without a
      bot token and a chat id. */
  function Notice(token: string, chat: string, rows: seq<Row>): (r: Option<string>)
    ensures r.None? <==> token == [] || chat == []
    ensures r.Some? ==> StartsWith(r.value, Header(|rows|))
  {
    if token == [] || chat == [] then None else Some(Header(|rows|) + Lines(rows))
  }

  /** `send_notification`, up to the request: the message it builds line by
      line (the post itself and its failure are not modelled). */
  method SendNotification(token: string, chat: string, rows: seq<Row>) returns (message: Option<string>)
    ensures message == Notice(token, chat, rows)
  {
    if token == [] || chat == [] {
      return None;
    }
    var text := AppendLines(Header(|rows|), rows);
    message := Some(text);
  }

  /** The loop of `send_notification`: one line per row after the header. */
  method AppendLines(head: string, rows: seq<Row>) returns (text: string)
    ensures text == head + Lines(rows)
  {
    text := head;
    for i := 0 to |rows|
      invariant text == head + Lines(rows[..i])
    {
      AppendLine(head, rows, i);
      text := text + Line(rows[i]);
    }
    AllOf(rows);
  }

  /** One more line after the lines of the first `i` rows. */
  lemma AppendLine(head: string, rows: seq<Row>, i: nat)
    requires i < |rows|
    ensures head + Lines(rows[..i]) + Line(rows[i]) == head + Lines(rows[..i + 1])
  {
    assert rows[..i + 1][..i] == rows[..i];
  }

  /** The lines of two runs of rows are those of the first, then those of the second. */
  lemma {:induction false} LinesConcat(a: seq<Row>, b: seq<Row>)
    decreases |b|
    ensures Lines(a + b) == Lines(a) + Lines(b)
  {
    if b != [] {
      var front := b[..|b| - 1];
      assert (a + b)[..|a + b| - 1] == a + front;
      assert (a + b)[|a + b| - 1] == b[|b| - 1];
      LinesLast(a + b);
      LinesLast(b);
      LinesConcat(a, front);
      Associative(Lines(a), Lines(front), Line(b[|b| - 1]));
    } else {
      assert a + b == a;
    }
  }

  lemma LinesLast(rows: seq<Row>)
    requires rows != []
    ensures Lines(rows) == Lines(rows[..|rows| - 1]) + Line(rows[|rows| - 1])
  {
  }

  /** An address `local@domain` is shown as the first three characters, `***@`
      and the domain; a local part of three or more characters keeps only its
      first three. */
  lemma MaskAddress(local: string, domain: string)
    requires '@' !in local && '@' !in domain
    ensures Mask(local + "@" + domain) == Take(local + "@" + domain, 3) + "***@" + domain
    ensures |local| >= 3 ==> Mask(local + "@" + domain) == local[..3] + "***@" + domain
  {
    PartitionAt(local, '@', domain);
    assert Partition(domain, '@') == (domain, false, "");
    if |local| >= 3 {
      assert (local + "@" + domain)[..3] == local[..3];
    }
  }

  /** Without an `@` the email is cut to three characters and `***`. */
  lemma MaskPlain(email: string)
    requires '@' !in email
    ensures Mask(email) == Take(email, 3) + "***"
  {
  }

  /** No digit string holds a character that is not a digit. */
  lemma DigitsLack(n: nat, c: char)
    requires !IsDigit(c)
    ensures c !in NatToString(n)
  {
    var s := NatToString(n);
    assert forall i :: 0 <= i < |s| ==> s[i] != c;
  }

  /** The details text of `extract_expiry_days` never holds 成 or 已. */
  lemma DetailsPlain(page: string)
    ensures '成' !in ExtractExpiryDays(page).0 && '已' !in ExtractExpiryDays(page).0
  {
    match SearchFull(page)
    case Some(t) => DetailsLack(t.0, t.1, t.2);
    case None =>
      match SearchDays(page)
      case Some(d) => DaysDetailsLack(d);
      case None =>
  }

  lemma DetailsLack(d: nat, h: nat, m: nat)
    ensures '成' !in Details(d, h, m) && '已' !in Details(d, h, m)
  {
    DigitsLack(d, '成'); DigitsLack(h, '成'); DigitsLack(m, '成');
    DigitsLack(d, '已'); DigitsLack(h, '已'); DigitsLack(m, '已');
  }

  lemma DaysDetailsLack(d: nat)
    ensures '成' !in DaysDetails(d) && '已' !in DaysDetails(d)
  {
    DigitsLack(d, '成'); DigitsLack(d, '已');
  }

  /** The symbol the notification puts in front of a served account: ✅
      exactly when the time left grew; ⏳ when no renew link was open but a
      greyed-out one was; ❌ for every other ending, including a renewal
      that found no link at all. */
  lemma RenewalStatus(v: ServerVisit)
    ensures Status(Run(Served(v)).1) ==
              if RenewServer(v).Err? then "❌"
              else if v.linksOpened == 0 then (if v.greyedOut then "⏳" else "❌")
              else if ExtractExpiryDays(v.finalPage).1 > ExtractExpiryDays(v.initialPage).1 then "✅"
              else "❌"
  {
    FixedStatus();
    if RenewServer(v).Ok? && v.linksOpened > 0 {
      DetailsPlain(v.finalPage);
      if ExtractExpiryDays(v.finalPage).1 > ExtractExpiryDays(v.initialPage).1 {
        RenewedStatus(ExtractExpiryDays(v.initialPage).0, ExtractExpiryDays(v.finalPage).0);
      } else {
        UnchangedStatus(ExtractExpiryDays(v.finalPage).0);
      }
    }
  }

  /** The fixed messages: only "今日已续期" shows ⏳. */
  lemma FixedStatus()
    ensures Status(RenewedToday) == "⏳" && Status(NoButton) == "❌"
    ensures Status(FailedPrefix + MissingUrl) == "❌" && Status(FailedPrefix + NoInitial) == "❌"
  {
    TodayStatus();
    PlainFailure(NoButton);
    PlainFailure(FailedPrefix + MissingUrl);
    PlainFailure(FailedPrefix + NoInitial);
  }

  lemma TodayStatus()
    ensures Status(RenewedToday) == "⏳"
  {
    ContainsHead(RenewedToday, "成功");
    assert RenewedToday[4..7] == "已续期";
    ContainsAt(RenewedToday, "已续期", 4);
  }

  /** A message that mentions neither success nor an earlier renewal. */
  lemma PlainFailure(m: string)
    requires '成' !in m && '已' !in m
    ensures Status(m) == "❌"
  {
    ContainsHead(m, "成功");
    ContainsHead(m, "已续期");
  }

  lemma RenewedStatus(initial: string, final: string)
    ensures Status(Renewed(initial, final)) == "✅"
  {
    var m := Renewed(initial, final);
    assert m[4] == '成' && m[5] == '功';
    assert m[4..6] == "成功";
    ContainsAt(m, "成功", 4);
  }

  lemma UnchangedStatus(final: string)
    requires '成' !in final && '已' !in final
    ensures Status(Unchanged(final)) == "❌"
  {
    ContainsHead(Unchanged(final), "成功");
    ContainsHead(Unchanged(final), "已续期");
  }

  // ---------------------------------------------------------------- load_accounts

  datatype Account = Account(email: string, password: string)

  /** The separators of PELLA_ACCOUNTS: `re.split(r'[;,]', ...)`. */
  const Seps: set<char> := {';', ','}
  const NoAccounts := "⚠️ 未找到有效账号配置"

  /** The environment variables `load_accounts` reads. */
  datatype EnvVar =
    | PELLA_ACCOUNTS | LEAFLOW_ACCOUNTS
    | PELLA_EMAIL | LEAFLOW_EMAIL
    | PELLA_PASSWORD | LEAFLOW_PASSWORD

  /** `os.getenv(name, default)` over the environment `env`. */
  function GetEnv(env: map<EnvVar, string>, name: EnvVar, default: string): string {
    if name in env then env[name] else default
  }

  /** Both parts present. */
  predicate Usable(a: Account) {
    a.email != [] && a.password != []
  }

  /** One piece of the accounts text as the account it configures: the piece
      is stripped, split at its first `:`, and both halves stripped; a blank
      piece, one without `:` or one with a blank half configures none. */
  function AccountOf(piece: string): (r: Option<Account>)
    ensures r.Some? ==> Usable(r.value) && IsStripped(r.value.email) && IsStripped(r.value.password)
    ensures ':' !in Strip(piece) ==> r.None?
  {
    var p := Strip(piece);
    if p != [] && ':' in p then
      var (email, password) := SplitOnce(p, ':').value;
      if Strip(email) != [] && Strip(password) != [] then Some(Account(Strip(email), Strip(password)))
      else None
    else None
  }

  /** `AccountOf` as a list of at most one account. */
  function AccountList(piece: string): (r: seq<Account>)
    ensures |r| <= 1
    ensures r != [] ==> Usable(r[0])
  {
    match AccountOf(piece)
    case Some(a) => [a]
    case None => []
  }

  /** The accounts the pieces configure, in the pieces' order. */
  function AccountsOf(pieces: seq<string>): (r: seq<Account>)
    decreases |pieces|
    ensures |r| <= |pieces|
    ensures forall k :: 0 <= k < |r| ==> Usable(r[k])
  {
    if pieces == [] then []
    else
      var init, last := AccountsOf(pieces[..|pieces| - 1]), AccountList(pieces[|pieces| - 1]);
      UsableAppend(init, last);
      init + last
  }

  /** Appending usable accounts to usable accounts keeps them all usable. */
  lemma UsableAppend(init: seq<Account>, last: seq<Account>)
    requires forall k :: 0 <= k < |init| ==> Usable(init[k])
    requires |last| <= 1 && (last != [] ==> Usable(last[0]))
    ensures forall k :: 0 <= k < |init + last| ==> Usable((init + last)[k])
  {
  }

  /** PELLA_ACCOUNTS, else LEAFLOW_ACCOUNTS, stripped. */
  function MultiText(env: map<EnvVar, string>): string {
    Strip(GetEnv(env, PELLA_ACCOUNTS, GetEnv(env, LEAFLOW_ACCOUNTS, "")))
  }

  function MultiAccounts(env: map<EnvVar, string>): seq<Account> {
    var text := MultiText(env);
    if text != [] then AccountsOf(Split(text, Seps)) else []
  }

  function SingleEmail(env: map<EnvVar, string>): string {
    Strip(GetEnv(env, PELLA_EMAIL, GetEnv(env, LEAFLOW_EMAIL, "")))
  }

  function SinglePassword(env: map<EnvVar, string>): string {
    Strip(GetEnv(env, PELLA_PASSWORD, GetEnv(env, LEAFLOW_PASSWORD, "")))
  }

  /** `load_accounts`: the accounts of the multi-account text when it
      configures any, else the single account when both its variables are
      non-blank, else the `ValueError` message. */
  function Accounts(env: map<EnvVar, string>): (r: Result<seq<Account>, string>)
    ensures r.Ok? ==> r.value != [] && forall k :: 0 <= k < |r.value| ==> Usable(r.value[k])
    ensures MultiAccounts(env) != [] ==> r == Ok(MultiAccounts(env))
    ensures MultiAccounts(env) == [] ==>
              r == if SingleEmail(env) != [] && SinglePassword(env) != []
                   then Ok([Account(SingleEmail(env), SinglePassword(env))]) else Err(NoAccounts)
  {
    var multi := MultiAccounts(env);
    if multi != [] then Ok(multi)
    else
      var email, password := SingleEmail(env), SinglePassword(env);
      if email != [] && password != [] then Ok([Account(email, password)])
      else Err(NoAccounts)
  }

  /** The loop of `load_accounts` over the pieces of the multi-account
      text, appending one account per usable piece. */
  method ParseAccounts(text: string) returns (accounts: seq<Account>)
    ensures accounts == AccountsOf(Split(text, Seps))
  {
    accounts := [];
    var parts := Split(text, Seps);
    for i := 0 to |parts|
      invariant accounts == AccountsOf(parts[..i])
    {
      AccountsStep(parts, i);
      var found := AccountOf(parts[i]);
      if found.Some? {
        accounts := accounts + [found.value];
      }
    }
    AllOf(parts);
  }

  /** `load_accounts` as the script runs it. */
  method LoadAccounts(env: map<EnvVar, string>) returns (r: Result<seq<Account>, string>)
    ensures r == Accounts(env)
  {
    var text := MultiText(env);
    if text != [] {
      var accounts := ParseAccounts(text);
      if accounts != [] {
        return Ok(accounts);
      }
    }
    var email, password := SingleEmail(env), SinglePassword(env);
    if email != [] && password != [] {
      return Ok([Account(email, password)]);
    }
    return Err(NoAccounts);
  }

  lemma AccountsStep(parts: seq<string>, i: nat)
    requires i < |parts|
    ensures AccountsOf(parts[..i + 1]) == AccountsOf(parts[..i]) + AccountList(parts[i])
  {
    assert parts[..i + 1][..i] == parts[..i];
  }

  /** Pieces contribute independently and in order. */
  lemma {:induction false} AccountsConcat(a: seq<string>, b: seq<string>)
    decreases |b|
    ensures AccountsOf(a + b) == AccountsOf(a) + AccountsOf(b)
  {
    if b != [] {
      assert (a + b)[..|a + b| - 1] == a + b[..|b| - 1];
      assert (a + b)[|a + b| - 1] == b[|b| - 1];
      AccountsConcat(a, b[..|b| - 1]);
    } else {
      assert a + b == a;
    }
  }

  /** An account that can be written as `email:password` in the accounts
      text: usable, no `:` in the email (the password may hold one) and no
      separator in either part. */
  predicate Listable(a: Account) {
    Usable(a) && IsStripped(a.email) && IsStripped(a.password)
    && ':' !in a.email && NoneOf(a.email, Seps) && NoneOf(a.password, Seps)
  }

  function Entry(a: Account): string {
    a.email + ":" + a.password
  }

  function Entries(accounts: seq<Account>): (r: seq<string>)
    decreases |accounts|
    ensures |r| == |accounts|
    ensures forall k :: 0 <= k < |r| ==> r[k] == Entry(accounts[k])
  {
    if accounts == [] then [] else Entries(accounts[..|accounts| - 1]) + [Entry(accounts[|accounts| - 1])]
  }

  /** The documented format `email1:password1,email2:password2`. */
  function AccountsText(accounts: seq<Account>): string {
    Join(Entries(accounts), ",")
  }

  /** `email:password` configures exactly that account: the split is at the
      first `:`, so a `:` in the password stays in the password. */
  lemma EntryAccount(a: Account)
    requires Listable(a)
    ensures AccountOf(Entry(a)) == Some(a)
  {
    var e := Entry(a);
    assert e[0] == a.email[0] && e[|e| - 1] == a.password[|a.password| - 1];
    StripStripped(e);
    SplitOnceAt(a.email, ':', a.password);
    StripStripped(a.email);
    StripStripped(a.password);
  }

  lemma {:induction false} EntriesAccounts(accounts: seq<Account>)
    requires forall k :: 0 <= k < |accounts| ==> Listable(accounts[k])
    decreases |accounts|
    ensures AccountsOf(Entries(accounts)) == accounts
  {
    if accounts != [] {
      var n := |accounts| - 1;
      EntriesAccounts(accounts[..n]);
      EntryAccount(accounts[n]);
      assert Entries(accounts)[..n] == Entries(accounts[..n]);
      LastSplit(accounts);
    }
  }

  /** Reading back the accounts text of listable accounts gives the
      accounts, in order. */
  lemma AccountsRoundTrip(accounts: seq<Account>)
    requires accounts != [] && forall k :: 0 <= k < |accounts| ==> Listable(accounts[k])
    ensures AccountsOf(Split(AccountsText(accounts), Seps)) == accounts
  {
    var es := Entries(accounts);
    forall k | 0 <= k < |es| ensures NoneOf(es[k], Seps) {
      var a := accounts[k];
      assert es[k] == a.email + ":" + a.password;
    }
    JoinSplit(es, Seps, ',');
    EntriesAccounts(accounts);
  }

  /** With the accounts text in PELLA_ACCOUNTS, `load_accounts` returns those
      accounts whatever the single-account variables say. */
  lemma ConfiguredAccounts(env: map<EnvVar, string>, accounts: seq<Account>)
    requires accounts != [] && forall k :: 0 <= k < |accounts| ==> Listable(accounts[k])
    requires PELLA_ACCOUNTS in env && env[PELLA_ACCOUNTS] == AccountsText(accounts)
    ensures Accounts(env) == Ok(accounts)
  {
    var es := Entries(accounts);
    JoinEnds(es, ",");
    assert es[0][0] == accounts[0].email[0];
    var last := accounts[|accounts| - 1];
    assert es[|es| - 1][|es[|es| - 1]| - 1] == last.password[|last.password| - 1];
    StripStripped(AccountsText(accounts));
    AccountsRoundTrip(accounts);
  }

  /** A join starts with its first piece and ends with its last. */
  lemma {:induction false} JoinEnds(parts: seq<string>, sep: string)
    requires parts != [] && forall k :: 0 <= k < |parts| ==> parts[k] != []
    decreases |parts|
    ensures var j := Join(parts, sep);
      j != [] && j[0] == parts[0][0] && j[|j| - 1] == parts[|parts| - 1][|parts[|parts| - 1]| - 1]
  {
    if |parts| > 1 {
      JoinEnds(parts[1..], sep);
      assert parts[1..][|parts| - 2] == parts[|parts| - 1];
    }
  }

  // ---------------------------------------------------------------- run_all

  /** What happened to one account in `run_all`: the driver could not be set
      up (with the exception's message), or `run` went ahead. */
  datatype Attempt = NoDriver(error: string) | Ran(session: Session)

  const EmptyCredentials := "邮箱和密码不能为空"
  const CaughtPrefix := "❌ 异常: "

  /** The result row of one account: the constructor refuses blank
      credentials, a driver failure is caught as an exception, and otherwise
      it is what `run` returns. */
  function Outcome(a: Account, t: Attempt): (r: Row)
    ensures r.email == a.email
    ensures r.success <==> a.email != [] && a.password != [] && t.Ran? && Run(t.session).0
    ensures !r.success ==> StartsWith(r.result, "❌ ")
    ensures Usable(a) && t.Ran? ==> r == Row(a.email, Run(t.session).0, Run(t.session).1)
    ensures Usable(a) && t.NoDriver? ==> r.result == CaughtPrefix + t.error
    ensures !Usable(a) ==> r.result == CaughtPrefix + EmptyCredentials
  {
    if a.email == [] || a.password == [] then Row(a.email, false, CaughtPrefix + EmptyCredentials)
    else match t
      case NoDriver(e) => Row(a.email, false, CaughtPrefix + e)
      case Ran(s) =>
        var (success, result) := Run(s);
        Row(a.email, success, result)
  }

  /** `all(s for _, s, _ in results)`. */
  function AllSucceeded(rows: seq<Row>): (r: bool)
    decreases |rows|
    ensures r <==> forall k :: 0 <= k < |rows| ==> rows[k].success
  {
    rows == [] || (rows[0].success && AllSucceeded(rows[1..]))
  }

  /** `run_all`: one row per account, in the accounts' order, the
      notification built from them, and overall success exactly when every
      account succeeded. */
  method RunAll(accounts: seq<Account>, attempts: seq<Attempt>, token: string, chat: string)
    returns (overall: bool, results: seq<Row>, message: Option<string>)
    requires |attempts| == |accounts|
    ensures |results| == |accounts|
    ensures forall k :: 0 <= k < |accounts| ==> results[k] == Outcome(accounts[k], attempts[k])
    ensures overall <==> forall k :: 0 <= k < |results| ==> results[k].success
    ensures message == Notice(token, chat, results)
  {
    results := [];
    for i := 0 to |accounts|
      invariant |results| == i
      invariant forall k :: 0 <= k < i ==> results[k] == Outcome(accounts[k], attempts[k])
    {
      var row := Outcome(accounts[i], attempts[i]);
      Extend(results, row);
      results := results + [row];
    }
    message := SendNotification(token, chat, results);
    overall := AllSucceeded(results);
  }
}
