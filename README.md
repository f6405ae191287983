# Free-host renewal scripts, modelled in Dafny

The repository holds four scheduled scripts. Each one keeps a free game or
VPS server alive by clicking its host's "renew" button in a headless browser.
It then reports the outcome to Telegram.

- **Castle-Host** (`scripts/castle-host_renew.py`)
  - parses the `CASTLE_COOKIES` header into browser cookies;
  - reads the `DD.MM.YYYY` expiry from the panel;
  - skips renewal while more than `RENEW_THRESHOLD` days are left;
  - classifies the panel's JSON or text answer, and the error messages in it;
  - re-reads the expiry to decide whether an uncertain renewal took effect.
- **Weirdhost** (`scripts/weirdhost_renew.py`)
  - parses a `vless://` link and turns it into an Xray client configuration;
  - formats the time left before expiry;
  - interprets the renew API's answer, which may be a cooldown error or a refreshed session cookie;
  - tries each available proxy in order, stopping at the first one that renews or fails for good.
- **Pella** (`scripts/pella_renew.py`)
  - loads one or more accounts from the environment;
  - reads `Your server expires in …D …H …M` from the dashboard;
  - decides whether opening the renew links lengthened the expiry;
  - writes one notification line per account.
- **KataBump** (`scripts/katabump_renew.py`)
  - finds the `Expiry … YYYY-MM-DD` date on the server page;
  - counts the days until that date;
  - asks for a manual renewal when a captcha blocks the script close to expiry;
  - judges the result page and falls back to comparing the old and new expiry.

The Dafny project keeps each script's decision logic and leaves out the browser itself.

`now`, every page text and every browser observation are parameters. A `Visit`,
`ServerVisit` or `ButtonState` value records what the browser saw at each step.

Python's own library functions that the decisions depend on are modelled in shared modules:

| module | what it models |
|---|---|
| `Text` | `str.strip`, `lower`, `split`, `partition` / `rpartition`, `int()` and `in` |
| `Strptime` | `datetime.strptime` for the formats used, including its regex backtracking and range checks |
| `Calendar` | proleptic Gregorian day numbers |
| `JsonValues` | JSON values and Python truthiness |
| `Wrappers` | `Option` and `Result` |

Code that works step by step is written as methods with loops:

- `ParseCookieString`, `ParseAccounts`, `ParseFirst`;
- the proxy loop of `add_server_time`;
- `run_all`;
- the renewal record that `main` fills in.

Each of these methods is proved against a function that specifies it. The
lemmas about that function state what the script promises.

## Model

| member | source | states |
|---|---|---|
| CastleHost.CookieOf | scripts/castle-host_renew.py:77-93 | a segment yields a cookie exactly when its stripped text has an `=`; the name and value are stripped, and the name has no `=` |
| CastleHost.CookieOfSplit | scripts/castle-host_renew.py:82-92 | the split happens at the first `=`: the name is the stripped text before it, the value the stripped rest, and the cookie carries the castle-host domain and path `/` |
| CastleHost.CookieKeepsValue | scripts/castle-host_renew.py:82-92 | a stripped name without `=` and a stripped value read back unchanged from `name=value` (round trip) |
| CastleHost.ParseCookieString | scripts/castle-host_renew.py:72-96 | the loop returns exactly the cookies of the `;`-separated segments, in order, with segments lacking `=` skipped; every cookie it returns has domain `.castle-host.com`, path `/` and a stripped name and value |
| CastleHost.CookiesWellFormed | scripts/castle-host_renew.py:83-91 | every cookie built from any list of segments has domain `.castle-host.com`, path `/` and a stripped name and value |
| CastleHost.CookiesConcat | scripts/castle-host_renew.py:75-93 | parsing a concatenation of segment lists yields the concatenation of the cookie lists |
| CastleHost.CookiesOne | scripts/castle-host_renew.py:79-82 | a single segment contributes one cookie if its stripped text has `=`, none otherwise |
| CastleHost.FirstRule | scripts/castle-host_renew.py:211-234 | the rule chosen is the first in the table that fires on the lower-cased text, and no earlier rule fires |
| CastleHost.AnalyzeErrorMessage | scripts/castle-host_renew.py:211-236 | the classification is that first firing rule's type and Chinese description, or `unknown` with the message itself |
| CastleHost.AnalyzeUnknown | scripts/castle-host_renew.py:211-236 | the result is `unknown` if and only if no rule fires, and then the message is returned unchanged |
| CastleHost.RateLimitWins | scripts/castle-host_renew.py:214-216 | a message that mentions `24 hour` or `24 час` is classified as rate-limited, whatever else it says |
| CastleHost.AnalyzeIgnoresCase | scripts/castle-host_renew.py:212 | lower-casing a message first does not change its classification |
| CastleHost.DecodeUnicodeError | scripts/castle-host_renew.py:200-209 | text that does not start with `\u` passes through unchanged; otherwise the result is the decoded text, or the input if decoding fails |
| CastleHost.ParseDate | scripts/castle-host_renew.py:178-189 | the date is the parse by the first of `%d.%m.%Y`, `%Y年%m月%d日`, `%Y-%m-%d` that accepts the text |
| CastleHost.ParsedDateIsMidnight | scripts/castle-host_renew.py:181-186 | every parsed date has time 00:00:00 |
| CastleHost.ParseDatePanelFormat | scripts/castle-host_renew.py:181-186 | a valid date printed as `DD.MM.YYYY` parses back to midnight of that date (round trip) |
| CastleHost.DateDifference | scripts/castle-host_renew.py:191-197 | the result is absent if and only if either date fails to parse; otherwise it is the second date's day number minus the first's |
| CastleHost.CalculateDateDifference | scripts/castle-host_renew.py:191-197 | the method computes `DateDifference` |
| CastleHost.DateDifferenceAntisymmetric | scripts/castle-host_renew.py:191-197 | swapping the two dates negates the difference, and both orders are defined or neither is |
| CastleHost.DateDifferenceOrder | scripts/castle-host_renew.py:191-197 | the difference is positive exactly when the first date comes before the second, and zero exactly when they are the same date |
| CastleHost.FindDate | scripts/castle-host_renew.py:111-116 | a pattern's search returns the leftmost position where its `DD.MM.YYYY` group is captured, and is absent exactly when there is none |
| CastleHost.FirstPattern | scripts/castle-host_renew.py:104-116 | the pattern used is the first of the list that finds a date |
| CastleHost.ExpiryIn | scripts/castle-host_renew.py:99-123 | the expiry found is always a `DD.MM.YYYY`-shaped text, and it is absent exactly when no pattern finds a date |
| CastleHost.ExtractExpiryDate | scripts/castle-host_renew.py:99-123 | the method searches the pattern list in order and returns `ExpiryIn` of the page text |
| CastleHost.LabelledExpiry | scripts/castle-host_renew.py:104-116 | when the first pattern, `Сервер действует до DD.MM.YYYY`, matches, its date is the one returned |
| CastleHost.NoDateNoExpiry | scripts/castle-host_renew.py:108-119 | a page without any dotted date yields no expiry |
| CastleHost.ApiVerdict | scripts/castle-host_renew.py:293-331 | a falsy body gives no verdict. A JSON `status: error` gives a failure classified from a text `error` field, and the `'<type>' object has no attribute 'lower'` exception for any other one. `status` `success` or `ok` is the renewed outcome. Any other non-empty object is renewed when `success` or `renewed` is truthy, and otherwise the `未知响应: <body>` failure. A text body with error words is a classified failure; with success words and no error words it is renewed; other text and other JSON values give no verdict |
| CastleHost.ErrorBeforeSuccess | scripts/castle-host_renew.py:325-331 | a text that mentions both an error and a success is judged a failure |
| CastleHost.PageVerdict | scripts/castle-host_renew.py:334-353 | `24 час` on the page means rate-limited. Success, always the fixed "renewed" outcome, if and only if the page shows a renewal and no rate limit. A page showing neither is the uncertain `需要验证到期时间` outcome with error type `unknown` |
| CastleHost.PerformRenewal | scripts/castle-host_renew.py:239-371 | a disabled button is the `button_disabled` failure. No button is the `no_button` failure, or the uncertain `JavaScript调用完成，需要验证` outcome when `freePay()` ran. A clicked button returns the API verdict when the captured body gives one, and the page verdict otherwise. An escaping exception is the `exception` failure with its text. Success is always the fixed "renewed" outcome, every failure names an error type, and only failures carry an original error |
| CastleHost.ReadSettings | scripts/castle-host_renew.py:411-425 | the cookies are the stripped `CASTLE_COOKIES`, which must be set and non-blank. The threshold is `int()` of `RENEW_THRESHOLD`, 3 when unset. The server id is `SERVER_ID`, `117954` when unset. `force` holds iff `FORCE_RENEW` lower-cases to `true`. Within `main` a non-integer threshold is the error, checked before the cookies; the missing-cookie error comes exactly when the threshold reads and the stripped cookies are empty |
| CastleHost.LaunchSettings | scripts/castle-host_renew.py:663-680 | run as a script, a missing or blank cookie setting is the error before anything else; a bad threshold is the error only with cookies set; otherwise the settings are those `main` reads |
| CastleHost.DefaultsRead | scripts/castle-host_renew.py:412-419 | the default texts `false` and `3` read as "not forced" and 3 |
| CastleHost.ShouldSkip | scripts/castle-host_renew.py:482-508 | forcing never skips, and a skip needs an integer day count above the threshold |
| CastleHost.DaysUntilExpiry | scripts/castle-host_renew.py:150-155 | `Unknown` exactly when there is no expiry or it does not parse as `DD.MM.YYYY`; otherwise a text that `int()` reads as the whole days from now to the expiry |
| CastleHost.DaysText | scripts/castle-host_renew.py:154 | the decimal text of a day count reads back as that count and is never `Unknown` |
| CastleHost.SkipIff | scripts/castle-host_renew.py:152-155 | renewal is skipped if and only if not forced, the expiry parses as `DD.MM.YYYY`, and the whole days until it exceed the threshold |
| CastleHost.SkipMonotone | scripts/castle-host_renew.py:482-508 | a skip at some threshold is also a skip at any lower one |
| CastleHost.VerifyRenewal | scripts/castle-host_renew.py:374-400 | a new expiry is reported iff the page shows a non-empty one; the day count is the date difference from the original when both dates parse, and 0 otherwise |
| CastleHost.UncertainSucceededIff | scripts/castle-host_renew.py:585-603 | an uncertain renewal counts as a success iff both expiries parse and the new one is a later date |
| CastleHost.NothingParsesEmpty | scripts/castle-host_renew.py:181-189 | the empty text parses under none of the date formats |
| CastleHost.RenewalRecord.constructor | scripts/castle-host_renew.py:31-39 | the record starts with empty texts, no success, and status `""` |
| CastleHost.RenewalRecord.Start | scripts/castle-host_renew.py:428-429 | the server id and the run time are recorded; nothing else changes |
| CastleHost.RenewalRecord.RecordOriginal | scripts/castle-host_renew.py:476 | the expiry read after login is the one before renewal; nothing else changes |
| CastleHost.RenewalRecord.Fail | scripts/castle-host_renew.py:626-630 | an exception marks the run failed with its text; the expiries, server, time and status are untouched |
| CastleHost.RenewalRecord.Skip | scripts/castle-host_renew.py:503-505 | a skip sets success, status `skipped` and the unchanged expiry; nothing else changes |
| CastleHost.RenewalRecord.Conclude | scripts/castle-host_renew.py:510-603 | the status is the outcome's error type. A failure keeps the original expiry and records the message. An uncertain outcome succeeds iff the expiry moved later, and otherwise records `到期时间未变化`. The server, old expiry and time are untouched |
| Weirdhost.WithoutUnsafe | scripts/weirdhost_renew.py:32 | removing tab, CR and LF leaves a shorter-or-equal text with none of them |
| Weirdhost.WithoutUnsafeAppend | scripts/weirdhost_renew.py:32 | removing those characters distributes over concatenation |
| Weirdhost.WithoutUnsafeSafe | scripts/weirdhost_renew.py:32 | a text with none of those characters is left unchanged |
| Weirdhost.SplitUrl | scripts/weirdhost_renew.py:32 | the network location is a prefix with no `/`, `?` or `#`, and the query has no `#` |
| Weirdhost.PortNumber | scripts/weirdhost_renew.py:38 | an accepted port is at most 65535 |
| Weirdhost.PlusToSpace | scripts/weirdhost_renew.py:32 | every `+` becomes a space and every other character stays, at the same position |
| Weirdhost.FieldPairs | scripts/weirdhost_renew.py:32 | query parsing keeps only fields with non-empty values, never more than there are fields |
| Weirdhost.ParamAbsent | scripts/weirdhost_renew.py:39-46 | a key that is absent from the query reads as its default |
| Weirdhost.ParamFirst | scripts/weirdhost_renew.py:39-46 | a present key reads as its first value |
| Weirdhost.ParseVlessUri | scripts/weirdhost_renew.py:28-48 | a link parses if and only if it starts with `vless://` and, after tab, CR and LF are removed, the network location of the rest has balanced `[`/`]` and a port that is absent or a decimal number of at most 65535; a parsed port is at most 65535 |
| Weirdhost.MissingParameters | scripts/weirdhost_renew.py:39-46 | each missing query parameter takes its default: `none` security and encryption, `tcp` transport, empty SNI, flow, fingerprint and Reality keys |
| Weirdhost.QueryRoundTrip | scripts/weirdhost_renew.py:32 | parsing a query joined from plain `key=value` fields gives the fields back |
| Weirdhost.SplitUrlOf | scripts/weirdhost_renew.py:32 | `netloc?query` splits back into that network location and query |
| Weirdhost.NetlocOf | scripts/weirdhost_renew.py:35-38 | `user@host:port` yields that user, host and port |
| Weirdhost.VlessRoundTrip | scripts/weirdhost_renew.py:28-48 | the link printed from any printable VLESS record parses back to that record |
| Weirdhost.ParamsOfList | scripts/weirdhost_renew.py:39-46 | reading each parameter of a record's query list gives that record's field |
| Weirdhost.GenerateXrayConfig | scripts/weirdhost_renew.py:51-70 | the config has exactly `inbounds` and `outbounds`. One SOCKS inbound on 127.0.0.1 at the local port, with UDP on. One VLESS outbound with one server entry holding the link's address and port, one user, and stream settings that fit the link. Every object has exactly the keys the script writes: the inbound `port`, `listen`, `protocol`, `settings`; the outbound `protocol`, `settings`, `streamSettings`; the server entry `address`, `port`, `users`; the user `id`, `encryption` and `flow` only when there is one |
| Weirdhost.ConfigOf | scripts/weirdhost_renew.py:67-70 | the top-level object holds exactly the given inbound and outbound |
| Weirdhost.SocksInbound | scripts/weirdhost_renew.py:67-68 | the inbound is SOCKS, listens on 127.0.0.1 at the given port, with UDP enabled; its keys are exactly `port`, `listen`, `protocol` and `settings`, and `settings` holds only `udp` |
| Weirdhost.VlessOutbound | scripts/weirdhost_renew.py:69 | the outbound is VLESS with a single server entry and the given stream settings; its keys are exactly `protocol`, `settings` and `streamSettings` |
| Weirdhost.VnextEntry | scripts/weirdhost_renew.py:64 | the server entry holds the link's address and port (JSON null when missing) and one user; it has no other keys |
| Weirdhost.StreamSettings | scripts/weirdhost_renew.py:52-63 | the stream settings carry the link's network. A `security` key appears only for `tls` and `reality`, with TLS settings exactly for `tls` and Reality settings exactly for `reality` |
| Weirdhost.UserEntry | scripts/weirdhost_renew.py:65-66 | the user carries the link's id and encryption, and a flow exactly when the link has one; it has no other keys |
| Weirdhost.ClockOf | scripts/weirdhost_renew.py:107-110 | a microsecond difference splits into days, hours under 24, minutes under 60 and a remainder under a minute that add back to it |
| Weirdhost.Breakdown | scripts/weirdhost_renew.py:107-119 | shown amounts are positive and in decreasing units. They add up to the difference truncated to the smallest shown unit. Nothing is shown iff under a minute is left. Minutes appear only when under a day is left |
| Weirdhost.ShownCounts | scripts/weirdhost_renew.py:111-117 | the shown parts add up to the days and hours, plus the minutes only when there are no days; days show iff there is at least one |
| Weirdhost.CalculateRemainingTime | scripts/weirdhost_renew.py:98-122 | the method tries the expiry formats on the stripped text and returns `RemainingTime` |
| Weirdhost.FormatRemaining | scripts/weirdhost_renew.py:111-119 | the text is the shown parts joined by spaces, or the under-a-minute text when there are none |
| Weirdhost.RemainingCases | scripts/weirdhost_renew.py:103-119 | given the parsed expiry: `无法解析` iff no format parses; `已过期` iff the expiry is past; the under-a-minute text iff under a minute is left |
| Weirdhost.UnparsableIff | scripts/weirdhost_renew.py:100-106 | the unparsable text appears exactly when no expiry format accepts the stripped text |
| Weirdhost.ExpiredIff | scripts/weirdhost_renew.py:107-109 | `已过期` appears exactly when the parsed expiry is before now |
| Weirdhost.UnderAMinuteIff | scripts/weirdhost_renew.py:111-119 | the under-a-minute text appears exactly when the expiry is less than a minute ahead |
| Weirdhost.ParseRenewError | scripts/weirdhost_renew.py:125-133 | the result is the first error's `detail` when it has one, otherwise the body's text form |
| Weirdhost.CooldownQuoted | scripts/weirdhost_renew.py:136-137 | a detail containing any cooldown phrase, in any case, is a cooldown error |
| Weirdhost.CooldownIgnoresCase | scripts/weirdhost_renew.py:136-137 | lower-casing a detail first does not change whether it is a cooldown error |
| Weirdhost.Judge | scripts/weirdhost_renew.py:412-441 | success exactly for an accepting response, with no retry and no message. A retry exactly for a 400 whose detail is not text, with the `异常: AttributeError(…)` message. Another 400 fails with `续期失败: <detail>`, any other status with `HTTP <n>`. No cookie is reported at this step |
| Weirdhost.FreshCookie | scripts/weirdhost_renew.py:443-445 | a new cookie is reported iff the browser returned a non-empty one different from the one sent |
| Weirdhost.TryRenew | scripts/weirdhost_renew.py:323-455 | each early exit has its message: `异常: <repr>` for an exception, then a load timeout, `Cookie 已失效` on a login page (the only early exit without a retry), no renew button, a Turnstile timeout, no modal button. A submitted renewal is `Judge` of the answer, with the fresh cookie unless the judgement asks for a retry. No answer asks for a retry with `未检测到续期 API 响应` and the fresh cookie. Success iff the answer is accepting |
| Weirdhost.BadRequest | scripts/weirdhost_renew.py:412-441 | a 400 whose detail is a cooldown counts as renewed, another text detail fails for good with `续期失败: …`, and a non-text detail asks for a retry |
| Weirdhost.VlessProxyPort | scripts/weirdhost_renew.py:25 | the VLESS proxy is the SOCKS address on 127.0.0.1 at port 10808 |
| Weirdhost.BuildProxies | scripts/weirdhost_renew.py:467-476 | the VLESS proxy is listed iff a link is set, parses, and Xray is running; the direct route iff it is enabled; VLESS comes first |
| Weirdhost.AppendProxies | scripts/weirdhost_renew.py:472-476 | each route is listed exactly when asked for, VLESS before direct |
| Weirdhost.AddServerTime | scripts/weirdhost_renew.py:458-501 | after stripping the cookie the run ends in exactly one of the reports `Reported` describes. An empty cookie means cookie missing and an empty list means no proxy. Otherwise the first attempt that renews, or fails without retry, ends the run, and every attempt before it asked for a retry. Failing that, all failed. Fresh cookies are stored in order |
| Weirdhost.RenewVia | scripts/weirdhost_renew.py:463-501 | given the stripped cookie, the same report and secret updates as above |
| Weirdhost.TryProxies | scripts/weirdhost_renew.py:483-499 | the loop stops at the first attempt that does not ask for a retry; every earlier attempt asked for one; the stored cookies are those of the attempts made |
| Pella.SearchFull | scripts/pella_renew.py:84-89 | the full `…D …H …M` match is the leftmost one, and is absent exactly when there is none |
| Pella.SearchDays | scripts/pella_renew.py:90-95 | the days-only match is the leftmost one, and is absent exactly when there is none |
| Pella.ExtractExpiryDays | scripts/pella_renew.py:82-97 | the leftmost full `…D …H …M` match gives its text and minutes; failing that, the leftmost days-only match gives its text and d×1440 minutes; failing both, `无法提取` and -1, and -1 only then |
| Pella.FullHasDays | scripts/pella_renew.py:84-95 | wherever the full pattern matches, the days-only pattern matches too |
| Pella.MinutesMeasureDays | scripts/pella_renew.py:87-88 | whole minutes are the script's fractional days times 1440, so both order expiries the same way |
| Pella.ExtractFull | scripts/pella_renew.py:84-89 | a page whose first `Y` starts `Your server expires in dD hH mM` yields that text and those minutes |
| Pella.ExtractDaysOnly | scripts/pella_renew.py:90-95 | a page showing only `Your server expires in dD` yields the days text and d days in minutes |
| Pella.ExtractNothing | scripts/pella_renew.py:96-97 | a page with no `Y` anywhere yields `无法提取` and -1 |
| Pella.DaysOnlyAt | scripts/pella_renew.py:84-95 | a days-only text matches the days pattern and not the full one |
| Pella.RenewServer | scripts/pella_renew.py:245-299 | an error iff the server URL is missing or the first expiry cannot be read. No renew links means renewed today if the button is greyed out, else no button. After the links, renewed iff the expiry grew, else unchanged |
| Pella.Run | scripts/pella_renew.py:301-318 | success iff the session served the page and the renewal returned a result, which is then the message. A failure is `❌ 失败: ` followed by the exception text or the renewal's error |
| Pella.Status | scripts/pella_renew.py:358 | ✅ exactly when the result mentions `成功`; ⏳ exactly when it mentions `已续期` but not `成功`; ❌ exactly when it mentions neither |
| Pella.Line | scripts/pella_renew.py:358-360 | a line is the status, the masked email and the first 60 characters of the result (all of it when shorter), ending in a newline |
| Pella.Mask | scripts/pella_renew.py:359 | the masked address keeps the first three characters |
| Pella.MaskAddress | scripts/pella_renew.py:359 | an address `local@domain` shows as its first three characters, `***@`, and the domain |
| Pella.MaskPlain | scripts/pella_renew.py:359 | a text without `@` shows as its first three characters and `***` |
| Pella.Notice | scripts/pella_renew.py:351-369 | no message iff the token or the chat is unset; a message starts with the header naming the account count |
| Pella.SendNotification | scripts/pella_renew.py:351-369 | the method builds `Notice` line by line |
| Pella.AppendLines | scripts/pella_renew.py:357-360 | the loop appends exactly the lines of the rows, in order |
| Pella.LinesConcat | scripts/pella_renew.py:357-360 | the lines of concatenated rows are the concatenated lines |
| Pella.RenewalStatus | scripts/pella_renew.py:245-299 | a served account's status is ✅ iff the expiry grew, ⏳ iff the button was greyed out without links, and ❌ otherwise |
| Pella.FixedStatus | scripts/pella_renew.py:284-286 | the fixed results show ⏳ for "renewed today" and ❌ for the others |
| Pella.RenewedStatus | scripts/pella_renew.py:294-295 | a renewed result shows ✅ |
| Pella.UnchangedStatus | scripts/pella_renew.py:296 | an unchanged result shows ❌ |
| Pella.DetailsPlain | scripts/pella_renew.py:82-97 | extracted expiry texts never contain `成` or `已`, so they cannot change the status |
| Pella.AccountOf | scripts/pella_renew.py:334-339 | an account line yields one account only if it has `:`; the email and password are stripped and non-empty |
| Pella.AccountsOf | scripts/pella_renew.py:330-339 | the accounts from a list of entries are all usable, and never more than there are entries |
| Pella.Accounts | scripts/pella_renew.py:326-349 | `PELLA_ACCOUNTS` with a usable entry wins. Otherwise a single email and password, when both are set, give one account. Otherwise there is no account configuration |
| Pella.ParseAccounts | scripts/pella_renew.py:330-339 | the loop returns the usable accounts of the `,`/`;`-separated entries, in order |
| Pella.LoadAccounts | scripts/pella_renew.py:326-349 | the method computes `Accounts` |
| Pella.AccountsConcat | scripts/pella_renew.py:330-339 | the accounts of concatenated entry lists are the concatenated accounts |
| Pella.EntryAccount | scripts/pella_renew.py:334-339 | an account printed as `email:password` reads back as itself |
| Pella.EntriesAccounts | scripts/pella_renew.py:330-339 | a list of printed accounts reads back as the list |
| Pella.AccountsRoundTrip | scripts/pella_renew.py:330-339 | accounts joined with `,` and split again give the same accounts (round trip) |
| Pella.ConfiguredAccounts | scripts/pella_renew.py:326-339 | setting `PELLA_ACCOUNTS` to the printed list loads exactly those accounts |
| Pella.Outcome | scripts/pella_renew.py:378-387 | a row keeps the email. With usable credentials and a browser it is the success and message of `Run`; a missing browser gives `❌ 异常: ` and its error, and blank credentials `❌ 异常: ` and the `ValueError` text. It succeeds iff the credentials are non-empty, the browser ran and the run succeeded |
| Pella.AllSucceeded | scripts/pella_renew.py:390 | holds iff every row succeeded |
| Pella.RunAll | scripts/pella_renew.py:371-390 | there is one row per account, in order, each that account's outcome; the overall result holds iff all rows succeeded; the notice is built from the rows |
| KataBump.DateFrom | scripts/katabump_renew.py:137 | the date found is the first `dddd-dd-dd` at or after the given position, and is absent exactly when there is none |
| KataBump.SearchExpiry | scripts/katabump_renew.py:137 | the match starts at the first `Expiry` (in any case) that is followed by a date |
| KataBump.ExpiryFromText | scripts/katabump_renew.py:136-138 | the expiry found is `YYYY-MM-DD`-shaped, and absent exactly when no `Expiry` word is followed by a date |
| KataBump.ExpiryOr | scripts/katabump_renew.py:220 | the placeholder `未知` exactly when no date is found, otherwise the `YYYY-MM-DD` text found |
| KataBump.ExpiryShown | scripts/katabump_renew.py:136-138 | a page showing `Expiry: YYYY-MM-DD` for a valid date, with no earlier `Expiry`, yields that date text |
| KataBump.DaysUntil | scripts/katabump_renew.py:141-147 | absent exactly when the text is not a `%Y-%m-%d` date; otherwise the day-number difference from today |
| KataBump.DaysUntilDate | scripts/katabump_renew.py:141-147 | a printed valid date is that many days from today |
| KataBump.DaysUntilOrder | scripts/katabump_renew.py:141-147 | a later date is more days away |
| KataBump.DaysUntilUnknown | scripts/katabump_renew.py:220-221 | the placeholder `未知` has no day count |
| KataBump.ErrorParam | scripts/katabump_renew.py:341-342 | `未知错误` when no `error=` is followed by a character other than `&`; otherwise the non-empty run without `&` after the first such `error=`, running to the end of the URL or to the next `&` |
| KataBump.ErrorStart | scripts/katabump_renew.py:341 | the match starts at the leftmost `error=` followed by a character other than `&`, and fails exactly when there is none |
| KataBump.ErrorShown | scripts/katabump_renew.py:341-342 | `…error=msg&…` with no earlier `error=` yields `msg` |
| KataBump.ErrorMissing | scripts/katabump_renew.py:342 | a URL without `error=` yields `未知错误` |
| KataBump.BelowAppend | scripts/katabump_renew.py:355 | Python string order on equal-length prefixes is decided by the prefixes first |
| KataBump.BelowIrreflexive | scripts/katabump_renew.py:355 | no string is below itself |
| KataBump.Pad4Below | scripts/katabump_renew.py:355 | four-digit zero-padded texts compare like their numbers |
| KataBump.IsoBelow | scripts/katabump_renew.py:355 | two printed valid dates compare as strings like the dates themselves |
| KataBump.IsoInjective | scripts/katabump_renew.py:355 | two valid dates print the same iff they are equal |
| KataBump.FallbackAsWrittenDates | scripts/katabump_renew.py:355 | on two printed valid dates the comparison as written is calendar order |
| KataBump.DatedBeforeUnknown | scripts/katabump_renew.py:353-355 | the comparison as written passes for any date text against the placeholder `未知` |
| KataBump.FallbackChronological | scripts/katabump_renew.py:353-355 | the corrected comparison succeeds iff the new date is later, and never for a missing date |
| KataBump.Classify | scripts/katabump_renew.py:327-372 | success on the page or URL wins, with the page's expiry. Otherwise the verdict is a rejection, with the URL's error message, exactly when the lower-cased URL has `error`. Otherwise the fallback test gives success, else unsure, both with the reloaded expiry |
| KataBump.Judge | scripts/katabump_renew.py:327-372 | the script's judgement: success on the page or URL wins; a rejection only when the URL has `error`; otherwise success with the reloaded expiry exactly when the string comparison of line 355 as written passes, else unsure |
| KataBump.JudgeIntended | scripts/katabump_renew.py:327-372 | the corrected judgement: as `Judge`, but the fallback success needs a reloaded date later than the old one, else unsure |
| KataBump.JudgesDiffer | scripts/katabump_renew.py:353-355 | the two judgements differ exactly when neither success nor error shows, the reloaded page has no date and the old expiry is below `未知`; the script then reports success with `未知`, the corrected one stays unsure |
| KataBump.MissingReloadDiffers | scripts/katabump_renew.py:353-355 | with a dated old expiry and a reloaded page without a date, the script reports success and the corrected judgement does not |
| KataBump.SuccessBeforeError | scripts/katabump_renew.py:327 | `renew=success` in the URL is a success even if the URL also mentions an error |
| KataBump.Run | scripts/katabump_renew.py:217-372 | without a cleared captcha: a manual renewal with the expiry and its days iff at most 3 days are left, else `NotYet` with the days. With it: renewed with the old and the judged new expiry iff judged a success; failed with the URL's error message iff rejected; a status check iff unsure and at most 2 days are left, else status unknown, both with the reloaded expiry |
| KataBump.ManualRenewalDue | scripts/katabump_renew.py:290-307 | with an `Expiry: YYYY-MM-DD` page and an unsolved captcha, the report is a manual renewal exactly when the date is at most 3 days away |
| Text.StripTrims | scripts/castle-host_renew.py:78 | `strip` keeps a middle slice of the text and removes only white space before and after it |
| Text.StripStripped | scripts/castle-host_renew.py:78 | `strip` leaves a text that has no surrounding white space unchanged |
| Text.LowerIdempotent | scripts/castle-host_renew.py:212 | lower-casing twice is lower-casing once |
| Text.Split | scripts/castle-host_renew.py:75 | splitting gives one more part than there are separators, and no part holds one |
| Text.SplitJoin | scripts/castle-host_renew.py:75 | joining the parts of a split with its separator gives the text back |
| Text.JoinSplit | scripts/pella_renew.py:330 | splitting parts joined by a separator, where no part holds a separator, gives the parts back |
| Text.ParseInt | scripts/castle-host_renew.py:419 | a text is accepted exactly when, once stripped, it is decimal digits or a sign followed by at least one digit. Its value is the digits' decimal value, negated after a `-` |
| Text.ParseIntRoundTrip | scripts/castle-host_renew.py:419 | `int()` reads the decimal text of any integer back as that integer |
| Strptime.Parse | scripts/castle-host_renew.py:184 | whatever `strptime` accepts is a valid calendar date and time of day |
| Strptime.FirstParse | scripts/castle-host_renew.py:181-189 | the result is the parse by the first format that accepts the text, and absent exactly when none does |
| Strptime.ParseFirst | scripts/weirdhost_renew.py:100-106 | the loop over the formats computes `FirstParse` |
| Strptime.IsoRoundTrip | scripts/katabump_renew.py:143 | a valid date printed as `YYYY-MM-DD` parses back to midnight of that date |
| Strptime.DayMonthYearRoundTrip | scripts/castle-host_renew.py:181 | a valid date printed as `DD.MM.YYYY` parses back to midnight of that date |
| JsonValues.GetTruthy | scripts/castle-host_renew.py:320 | a truthy `d.get(k)` means the key is present, so the object is truthy too |
| Calendar.OrdinalOrder | scripts/castle-host_renew.py:195 | day numbers order dates chronologically and identify them |

## Left out

- The browser, the network, the Telegram and GitHub APIs, Capsolver, the Xray subprocess, sleeps and logging are left out. Each decision takes what the browser saw as a parameter.
- The clock is the parameter `now`.
- `scripts/Uptime-Kuma-API.py` is not part of this model.
- Python's regex `\d` and `\s` are modelled for ASCII digits and Python's own white-space set; non-ASCII digits are not.
- `lower()` and `re.IGNORECASE` are modelled for ASCII and Cyrillic letters only.
- CastleHost.DecodeUnicodeError: decoding `\uXXXX` escapes is a parameter, not computed.
- CastleHost.ApiVerdict: `str(body)` of a JSON object, shown in the `未知响应:` message (`scripts/castle-host_renew.py:322`), is the parameter `shown` rather than computed.
- JsonValues: JSON numbers are integers only. Floats, the falsiness of `0.0` and the type name `float` in the `'…' object has no attribute 'lower'` messages are not modelled.
- Text.ParseInt: `int()` also accepts underscores between digits (`1_0`) and non-ASCII decimal digits; the model rejects both.
- CastleHost.IsWordChar: the `\b` of the last date pattern (`scripts/castle-host_renew.py:108`) counts ASCII letters, digits and `_`, Cyrillic (U+0400-U+04FF) and CJK ideographs (U+4E00-U+9FFF) as word characters, not all of Unicode `\w`.
- Weirdhost.ParseRenewError: `str(body)` of a JSON body is passed in as a parameter rather than computed.
- Weirdhost.ParseVlessUri: `urlsplit`'s IPv6 host validation, its NFKC check and percent-decoding of query values are not modelled. A link that needs them is outside the model.
- Weirdhost.TryRenew: which browser step raises is not modelled. Any exception, for example from the reload after a 2xx answer (`scripts/weirdhost_renew.py:418`), comes before the success flag is set and is the `Raised` visit, which asks for a retry.
- Weirdhost.CalculateRemainingTime: the catch-all `计算失败` answer is not modelled. Once an expiry has parsed, nothing left in the body raises.
- Pella.ExtractExpiryDays: the source's fractional days (`float`) are integer minutes here. `Pella.MinutesMeasureDays` shows both order expiries alike.
- Pella.RenewServer: browser exceptions inside the renewal step, which the source wraps as `❌ 续期错误: …`, are not modelled.
- Pella.Run: the login-failure branch of `run`, which cannot be reached, is not modelled.
- Pella: the `ValueError` for blank credentials at `scripts/pella_renew.py:45-46` is modelled as a failed row in `Pella.Outcome`.
- KataBump.Run: it judges with `JudgeIntended`, the corrected fallback test; `KataBump.Judge` is the judgement as written, and `KataBump.JudgesDiffer` states where the two part.
- KataBump.Run: exceptions (login failure, a missing Renew button, a modal that does not open) are not modelled.
- KataBump.Run: the Turnstile flow (auto-pass, Capsolver, token injection) is the parameter `captchaCleared`.
- Castle-Host and Weirdhost: the texts of Telegram reports sent by `main` and `add_server_time` are not modelled; only which report is sent.

## Findings

| source | as written | input that shows it | evidently intended | confidence | as-written member | corrected member |
|---|---|---|---|---|---|---|
| scripts/katabump_renew.py:355 | `new_expiry != old_expiry and new_expiry > old_expiry` compares the expiries as strings, and a missing new expiry becomes `未知` | old expiry `2025-01-10`; the reloaded page shows no `Expiry` date, so `new_expiry == '未知'`, and `'未知' > '2025-01-10'` because U+672A sorts above every digit: success is reported | a renewal counts only when the reloaded page shows a date strictly after the old one | not executed | KataBump.MissingReloadDiffers | KataBump.JudgeIntended |
