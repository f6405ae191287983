/** The Weirdhost renewal script: the VLESS link it builds a local Xray
    client from, the remaining-time text, the reading of the renewal API's
    answer and the fallback over the proxies it can reach the site through. */
module Weirdhost {
  import opened Wrappers
  import opened Text
  import opened JsonValues
  import opened Calendar
  import opened Strptime

  /** `XRAY_LOCAL_PORT`: the SOCKS port the local Xray client listens on. */
  const XrayLocalPort: nat := 10808
  /** `ENABLE_DIRECT`: whether a direct connection is tried after the proxy. */
  const EnableDirect: bool := false

  const Scheme: string := "vless://"

  // ---------------------------------------------------------------- urlsplit

  /** The characters `urlsplit` deletes wherever they occur. */
  predicate Unsafe(c: char) {
    c == '\t' || c == '\r' || c == '\n'
  }

  predicate Safe(s: string) {
    '\t' !in s && '\r' !in s && '\n' !in s
  }

  function WithoutUnsafe(s: string): (r: string)
    ensures |r| <= |s| && Safe(r)
  {
    if s == [] then []
    else (if Unsafe(s[0]) then [] else [s[0]]) + WithoutUnsafe(s[1..])
  }

  lemma {:induction false} WithoutUnsafeAppend(a: string, b: string)
    decreases |a|
    ensures WithoutUnsafe(a + b) == WithoutUnsafe(a) + WithoutUnsafe(b)
  {
    if a == [] {
      assert a + b == b;
    } else {
      var head := if Unsafe(a[0]) then [] else [a[0]];
      assert (a + b)[0] == a[0] && (a + b)[1..] == a[1..] + b;
      assert WithoutUnsafe(a + b) == head + WithoutUnsafe(a[1..] + b);
      WithoutUnsafeAppend(a[1..], b);
      assert WithoutUnsafe(a) == head + WithoutUnsafe(a[1..]);
      assert head + (WithoutUnsafe(a[1..]) + WithoutUnsafe(b)) == (head + WithoutUnsafe(a[1..])) + WithoutUnsafe(b);
    }
  }

  /** Text without tabs and line breaks is left as it is. */
  lemma {:induction false} WithoutUnsafeSafe(s: string)
    requires Safe(s)
    ensures WithoutUnsafe(s) == s
  {
    if s != [] {
      assert s == [s[0]] + s[1..];
      WithoutUnsafeSafe(s[1..]);
    }
  }

  /** Deleting the unsafe characters keeps the scheme in front, so the text
      `urlsplit` reads after `vless://` is the cleaned rest of the link. */
  lemma SchemeKept(uri: string)
    requires StartsWith(uri, Scheme)
    ensures WithoutUnsafe(uri) == Scheme + WithoutUnsafe(uri[|Scheme|..])
  {
    assert uri == Scheme + uri[|Scheme|..];
    WithoutUnsafeAppend(Scheme, uri[|Scheme|..]);
    WithoutUnsafeSafe(Scheme);
  }

  /** The two parts of a link that `parse_vless_uri` reads. */
  datatype UrlParts = UrlParts(netloc: string, query: string)

  /** `urlsplit` on the text after `//`: the network location runs up to the
      first `/`, `?` or `#`; the query is what follows the first `?` of the
      rest, up to the fragment's `#`. */
  function SplitUrl(rest: string): (r: UrlParts)
    ensures NoneOf(r.netloc, {'/', '?', '#'}) && StartsWith(rest, r.netloc)
    ensures '#' !in r.query
  {
    var end := match FirstOf(rest, {'/', '?', '#'}) case None => |rest| case Some(i) => i;
    assert rest[..|rest|] == rest;
    var beforeFragment := Partition(rest[end..], '#').0;
    UrlParts(rest[..end], Partition(beforeFragment, '?').2)
  }

  /** `urlsplit` raises `ValueError` for a `[` without a `]`, or the reverse. */
  predicate BracketsBalanced(netloc: string) {
    ('[' in netloc) == (']' in netloc)
  }

  /** `parsed.username`: the user information runs up to the last `@` of
      the network location, and the name is its text before the first `:`. */
  function Username(netloc: string): Option<string> {
    var (info, hasInfo, _) := RPartition(netloc, '@');
    if hasInfo then Some(Partition(info, ':').0) else None
  }

  /** `parsed._hostinfo`: the host text and the port text of what follows
      the last `@`; a host in brackets ends at the first `]`. */
  function HostInfo(netloc: string): (string, string) {
    var hostinfo := RPartition(netloc, '@').2;
    var (_, bracketed, inside) := Partition(hostinfo, '[');
    if bracketed then
      var (host, _, after) := Partition(inside, ']');
      (host, Partition(after, ':').2)
    else
      var (host, _, port) := Partition(hostinfo, ':');
      (host, port)
  }

  /** `parsed.hostname`: absent when empty, lower-cased up to a `%` zone. */
  function Hostname(netloc: string): Option<string> {
    var host := HostInfo(netloc).0;
    if host == "" then None
    else
      var (name, zoned, zone) := Partition(host, '%');
      Some(Lower(name) + (if zoned then "%" + zone else ""))
  }

  /** Port text `parsed.port` accepts: none at all, or ASCII digits for a
      number up to 65535; any other text raises `ValueError`. */
  predicate PortAccepted(text: string) {
    text == "" || (AllDigits(text) && DigitsValue(text) <= 65535)
  }

  function PortNumber(text: string): (r: Option<nat>)
    requires PortAccepted(text)
    ensures r.Some? ==> r.value <= 65535
  {
    if text == "" then None else Some(DigitsValue(text))
  }

  // ---------------------------------------------------------------- parse_qs

  /** `parse_qsl` turns `+` into a space in names and values. */
  function PlusToSpace(s: string): (r: string)
    ensures |r| == |s|
    ensures forall i :: 0 <= i < |s| ==> r[i] == (if s[i] == '+' then ' ' else s[i])
  {
    seq(|s|, i requires 0 <= i < |s| => if s[i] == '+' then ' ' else s[i])
  }

  /** The name-value pairs of the `&`-separated fields, in order: a field
      without `=` or with an empty value is dropped, and a field is cut at
      its first `=`. */
  function FieldPairs(fields: seq<string>): (r: seq<(string, string)>)
    ensures |r| <= |fields|
    ensures forall k :: 0 <= k < |r| ==> r[k].1 != ""
  {
    if fields == [] then []
    else
      var rest := FieldPairs(fields[1..]);
      match SplitOnce(fields[0], '=')
      case None => rest
      case Some(nv) => if nv.1 == "" then rest else [(PlusToSpace(nv.0), PlusToSpace(nv.1))] + rest
  }

  /** `parse_qsl(query)`. */
  function QueryPairs(query: string): seq<(string, string)> {
    FieldPairs(Split(query, {'&'}))
  }

  /** `parse_qs(query).get(key, [default])[0]`: the first value given for
      `key`, as `parse_qs` keeps the values of a name in order. */
  function Param(pairs: seq<(string, string)>, key: string, default: string): string {
    if pairs == [] then default
    else if pairs[0].0 == key then pairs[0].1
    else Param(pairs[1..], key, default)
  }

  /** A name the query does not give takes the default. */
  lemma {:induction false} ParamAbsent(pairs: seq<(string, string)>, key: string, default: string)
    requires forall k :: 0 <= k < |pairs| ==> pairs[k].0 != key
    ensures Param(pairs, key, default) == default
  {
    if pairs != [] {
      assert forall k :: 0 <= k < |pairs| - 1 ==> pairs[1..][k] == pairs[k + 1];
      ParamAbsent(pairs[1..], key, default);
    }
  }

  /** A name the query gives takes the value of its first occurrence. */
  lemma {:induction false} ParamFirst(pairs: seq<(string, string)>, key: string, default: string, k: nat)
    requires k < |pairs| && pairs[k].0 == key
    requires forall j :: 0 <= j < k ==> pairs[j].0 != key
    ensures Param(pairs, key, default) == pairs[k].1
  {
    if k > 0 {
      assert forall j :: 0 <= j < k - 1 ==> pairs[1..][j] == pairs[j + 1];
      ParamFirst(pairs[1..], key, default, k - 1);
    }
  }

  // ---------------------------------------------------------------- parse_vless_uri

  /** The dictionary `parse_vless_uri` returns; `network` is its `type`. */
  datatype Vless = Vless(uuid: Option<string>, server: Option<string>, port: Option<nat>,
                         security: string, sni: string, network: string, flow: string,
                         fp: string, pbk: string, sid: string, encryption: string)

  /** What `urlsplit` and `parsed.port` accept after `vless://`. */
  predicate LinkAccepted(parts: UrlParts) {
    BracketsBalanced(parts.netloc) && PortAccepted(HostInfo(parts.netloc).1)
  }

  /** `parse_vless_uri(uri)`; `None` for another scheme and where `urlsplit`
      or `parsed.port` raises, which the bare `except` turns into `None`. */
  function ParseVlessUri(uri: string): (r: Option<Vless>)
    ensures r.Some? <==> StartsWith(uri, Scheme) && LinkAccepted(SplitUrl(WithoutUnsafe(uri[|Scheme|..])))
    ensures r.Some? && r.value.port.Some? ==> r.value.port.value <= 65535
  {
    if !StartsWith(uri, Scheme) then None
    else
      var parts := SplitUrl(WithoutUnsafe(uri[|Scheme|..]));
      if !LinkAccepted(parts) then None
      else
        var ps := QueryPairs(parts.query);
        Some(Vless(Username(parts.netloc), Hostname(parts.netloc), PortNumber(HostInfo(parts.netloc).1),
                   Param(ps, "security", "none"), Param(ps, "sni", ""), Param(ps, "type", "tcp"),
                   Param(ps, "flow", ""), Param(ps, "fp", ""), Param(ps, "pbk", ""),
                   Param(ps, "sid", ""), Param(ps, "encryption", "none")))
  }

  /** The query pairs of an accepted link. */
  function LinkPairs(uri: string): seq<(string, string)>
    requires StartsWith(uri, Scheme)
  {
    QueryPairs(SplitUrl(WithoutUnsafe(uri[|Scheme|..])).query)
  }

  predicate Absent(pairs: seq<(string, string)>, key: string) {
    forall k :: 0 <= k < |pairs| ==> pairs[k].0 != key
  }

  /** Parameters the link leaves out get `parse_vless_uri`'s defaults:
      `none` for security and encryption, `tcp` for the transport and the
      empty string for the rest. */
  lemma MissingParameters(uri: string)
    requires ParseVlessUri(uri).Some?
    ensures var v, ps := ParseVlessUri(uri).value, LinkPairs(uri);
      && (Absent(ps, "security") ==> v.security == "none")
      && (Absent(ps, "sni") ==> v.sni == "")
      && (Absent(ps, "type") ==> v.network == "tcp")
      && (Absent(ps, "flow") ==> v.flow == "")
      && (Absent(ps, "fp") ==> v.fp == "")
      && (Absent(ps, "pbk") ==> v.pbk == "")
      && (Absent(ps, "sid") ==> v.sid == "")
      && (Absent(ps, "encryption") ==> v.encryption == "none")
  {
    var ps := LinkPairs(uri);
    if Absent(ps, "security") { ParamAbsent(ps, "security", "none"); }
    if Absent(ps, "sni") { ParamAbsent(ps, "sni", ""); }
    if Absent(ps, "type") { ParamAbsent(ps, "type", "tcp"); }
    if Absent(ps, "flow") { ParamAbsent(ps, "flow", ""); }
    if Absent(ps, "fp") { ParamAbsent(ps, "fp", ""); }
    if Absent(ps, "pbk") { ParamAbsent(ps, "pbk", ""); }
    if Absent(ps, "sid") { ParamAbsent(ps, "sid", ""); }
    if Absent(ps, "encryption") { ParamAbsent(ps, "encryption", "none"); }
  }

  // ---------------------------------------------------------------- links written from records

  /** The parameters of a record as a link carries them, in a fixed order. */
  function ParamList(v: Vless): seq<(string, string)> {
    [("security", v.security), ("sni", v.sni), ("type", v.network), ("flow", v.flow),
     ("fp", v.fp), ("pbk", v.pbk), ("sid", v.sid), ("encryption", v.encryption)]
  }

  function Field(p: (string, string)): string {
    p.0 + "=" + p.1
  }

  function Fields(ps: seq<(string, string)>): (r: seq<string>)
    ensures |r| == |ps| && forall k :: 0 <= k < |ps| ==> r[k] == Field(ps[k])
  {
    seq(|ps|, k requires 0 <= k < |ps| => Field(ps[k]))
  }

  /** `vless://uuid@server:port?security=...&...&encryption=...`. */
  function VlessLink(v: Vless): string
    requires v.uuid.Some? && v.server.Some? && v.port.Some?
  {
    Scheme + v.uuid.value + "@" + v.server.value + ":" + NatToString(v.port.value)
      + "?" + Join(Fields(ParamList(v)), "&")
  }

  /** A value a query carries unchanged: non-empty (blank values are
      dropped), without the field separator `&`, the `+` read as a space,
      the fragment mark `#` or a character `urlsplit` deletes. */
  predicate PlainValue(s: string) {
    s != "" && '&' !in s && '+' !in s && '#' !in s && Safe(s)
  }

  /** A user name a link carries unchanged. */
  predicate PlainUser(u: string) {
    ':' !in u && '/' !in u && '?' !in u && '#' !in u && '[' !in u && ']' !in u && Safe(u)
  }

  /** A host name a link carries unchanged: `hostname` lower-cases it. */
  predicate PlainHost(h: string) {
    h != "" && Lower(h) == h && '@' !in h && ':' !in h && '/' !in h && '?' !in h && '#' !in h
      && '[' !in h && ']' !in h && '%' !in h && Safe(h)
  }

  predicate Linkable(v: Vless) {
    && v.uuid.Some? && PlainUser(v.uuid.value)
    && v.server.Some? && PlainHost(v.server.value)
    && v.port.Some? && v.port.value <= 65535
    && PlainValue(v.security) && PlainValue(v.sni) && PlainValue(v.network) && PlainValue(v.flow)
    && PlainValue(v.fp) && PlainValue(v.pbk) && PlainValue(v.sid) && PlainValue(v.encryption)
  }

  /** A name-value pair a query carries unchanged. */
  predicate PlainPair(p: (string, string)) {
    '=' !in p.0 && '+' !in p.0 && '&' !in p.0 && '#' !in p.0 && Safe(p.0) && PlainValue(p.1)
  }

  predicate PlainPairs(ps: seq<(string, string)>) {
    forall k :: 0 <= k < |ps| ==> PlainPair(ps[k])
  }

  lemma ParamListPlain(v: Vless)
    requires Linkable(v)
    ensures PlainPairs(ParamList(v))
  {
    var ps := ParamList(v);
    forall k | 0 <= k < |ps| ensures PlainPair(ps[k]) {
      if k == 0 { NamedPlain("security", v.security); }
      else if k == 1 { NamedPlain("sni", v.sni); }
      else if k == 2 { NamedPlain("type", v.network); }
      else if k == 3 { NamedPlain("flow", v.flow); }
      else if k == 4 { NamedPlain("fp", v.fp); }
      else if k == 5 { NamedPlain("pbk", v.pbk); }
      else if k == 6 { NamedPlain("sid", v.sid); }
      else { NamedPlain("encryption", v.encryption); }
    }
  }

  /** A parameter with a lower-case name and a plain value is a plain pair. */
  lemma NamedPlain(name: string, value: string)
    requires forall i :: 0 <= i < |name| ==> 'a' <= name[i] <= 'z'
    requires PlainValue(value)
    ensures PlainPair((name, value))
  {
  }

  lemma {:induction false} PlusFree(s: string)
    requires '+' !in s
    ensures PlusToSpace(s) == s
  {
    assert forall i :: 0 <= i < |s| ==> s[i] != '+';
  }

  /** Fields written as `name=value` are read back as the same pairs. */
  lemma {:induction false} FieldPairsOfFields(ps: seq<(string, string)>)
    requires PlainPairs(ps)
    ensures FieldPairs(Fields(ps)) == ps
  {
    if ps != [] {
      var fs := Fields(ps);
      assert fs[1..] == Fields(ps[1..]);
      FieldPairsOfFields(ps[1..]);
      SplitOnceAt(ps[0].0, '=', ps[0].1);
      PlusFree(ps[0].0);
      PlusFree(ps[0].1);
      assert ps == [ps[0]] + ps[1..];
    }
  }

  /** `parse_qsl` reads a query written from pairs back as those pairs. */
  lemma QueryRoundTrip(ps: seq<(string, string)>)
    requires |ps| >= 1 && PlainPairs(ps)
    ensures QueryPairs(Join(Fields(ps), "&")) == ps
  {
    var fs := Fields(ps);
    assert forall k :: 0 <= k < |fs| ==> NoneOf(fs[k], {'&'}) by {
      forall k | 0 <= k < |fs| ensures NoneOf(fs[k], {'&'}) {
        assert PlainPair(ps[k]);
      }
    }
    JoinSplit(fs, {'&'}, '&');
    FieldPairsOfFields(ps);
  }

  /** `urlsplit` finds the network location and the query of a link put
      together from them. */
  lemma SplitUrlOf(netloc: string, query: string)
    requires NoneOf(netloc, {'/', '?', '#'}) && '#' !in query
    ensures SplitUrl(netloc + "?" + query) == UrlParts(netloc, query)
  {
    var rest := netloc + "?" + query;
    FirstOfAt(netloc, {'/', '?', '#'}, '?', query);
    assert rest[..|netloc|] == netloc;
    assert rest[|netloc|..] == "?" + query;
    assert "" + ['?'] + query == "?" + query;
    PartitionAt("", '?', query);
  }

  /** Decimal digits are none of the characters a link gives a meaning. */
  lemma DigitsPlain(p: nat)
    ensures var d := NatToString(p);
      && Safe(d) && '@' !in d && ':' !in d && '[' !in d && ']' !in d && '/' !in d && '?' !in d && '#' !in d
  {
    var d := NatToString(p);
    assert forall i :: 0 <= i < |d| ==> IsDigit(d[i]);
  }

  /** The user, host and port of `user@host:port` come back as written. */
  lemma NetlocOf(u: string, h: string, p: nat)
    requires PlainUser(u) && PlainHost(h) && p <= 65535
    ensures var netloc := u + "@" + h + ":" + NatToString(p);
      && BracketsBalanced(netloc) && HostInfo(netloc) == (h, NatToString(p))
      && PortAccepted(NatToString(p)) && PortNumber(NatToString(p)) == Some(p)
      && Username(netloc) == Some(u) && Hostname(netloc) == Some(h)
  {
    DigitsPlain(p);
    NetlocParts(u, h, NatToString(p));
    PortOf(p);
  }

  /** The user, host and port text of `user@host:port`. */
  lemma NetlocParts(u: string, h: string, digits: string)
    requires PlainUser(u) && PlainHost(h)
    requires Safe(digits) && '@' !in digits && ':' !in digits && '[' !in digits && ']' !in digits
    ensures var netloc := u + "@" + h + ":" + digits;
      && BracketsBalanced(netloc) && HostInfo(netloc) == (h, digits)
      && Username(netloc) == Some(u) && Hostname(netloc) == Some(h)
  {
    HostInfoPlain(h, digits);
    assert u + "@" + h + ":" + digits == u + "@" + (h + [':'] + digits);
    NetlocUser(u, h + [':'] + digits);
    NetlocHost(u, h, digits);
  }

  /** The port text of a link reads back as the port. */
  lemma PortOf(p: nat)
    requires p <= 65535
    ensures PortAccepted(NatToString(p)) && PortNumber(NatToString(p)) == Some(p)
  {
    NatToStringValue(p);
  }

  /** The user information of `user@hostinfo` is `user`. */
  lemma NetlocUser(u: string, hostinfo: string)
    requires PlainUser(u) && '@' !in hostinfo
    ensures RPartition(u + "@" + hostinfo, '@') == (u, true, hostinfo)
    ensures Username(u + "@" + hostinfo) == Some(u)
  {
    assert u + "@" + hostinfo == u + ['@'] + hostinfo;
    RPartitionAt(u, '@', hostinfo);
    assert Partition(u, ':') == (u, false, "");
  }

  /** The host and port of `user@host:port` are `host` and `port`. */
  lemma NetlocHost(u: string, h: string, digits: string)
    requires PlainUser(u) && PlainHost(h)
    requires Safe(digits) && '@' !in digits && ':' !in digits && '[' !in digits && ']' !in digits
    requires RPartition(u + "@" + (h + [':'] + digits), '@') == (u, true, h + [':'] + digits)
    ensures var netloc := u + "@" + h + ":" + digits;
      BracketsBalanced(netloc) && HostInfo(netloc) == (h, digits) && Hostname(netloc) == Some(h)
  {
    var hostinfo := h + [':'] + digits;
    var netloc := u + "@" + h + ":" + digits;
    assert netloc == u + "@" + hostinfo;
    HostInfoPlain(h, digits);
    assert '[' !in netloc && ']' !in netloc;
    assert HostInfo(netloc) == (h, digits);
    HostnamePlain(h);
  }

  /** The host information `host:port` of a record splits at its colon. */
  lemma HostInfoPlain(h: string, digits: string)
    requires PlainHost(h) && Safe(digits) && '@' !in digits && ':' !in digits && '[' !in digits && ']' !in digits
    ensures var hostinfo := h + [':'] + digits;
      && '@' !in hostinfo && '[' !in hostinfo && ']' !in hostinfo
      && Partition(hostinfo, '[') == (hostinfo, false, "") && Partition(hostinfo, ':') == (h, true, digits)
  {
    PartitionAt(h, ':', digits);
  }

  /** A plain host name is its own `hostname`. */
  lemma HostnamePlain(h: string)
    requires PlainHost(h)
    ensures Partition(h, '%') == (h, false, "") && Lower(h) + "" == h
  {
    assert Lower(h) + "" == Lower(h);
  }


  /** The query of a record's link holds no fragment mark or unsafe character. */
  lemma QueryPlain(v: Vless)
    requires Linkable(v)
    ensures var query := Join(Fields(ParamList(v)), "&");
      '#' !in query && Safe(query) && QueryPairs(query) == ParamList(v)
  {
    var ps := ParamList(v);
    var fs := Fields(ps);
    ParamListPlain(v);
    QueryRoundTrip(ps);
    forall k | 0 <= k < |fs| ensures '#' !in fs[k] && Safe(fs[k]) {
      assert PlainPair(ps[k]);
    }
    JoinKeeps(fs, "&");
  }

  /** `user@host:port` of a record. */
  function NetlocText(v: Vless): string
    requires v.uuid.Some? && v.server.Some? && v.port.Some?
  {
    v.uuid.value + "@" + v.server.value + ":" + NatToString(v.port.value)
  }

  /** The network location of a record's link holds no character that ends
      it and nothing the link sanitiser drops. */
  lemma NetlocPlain(v: Vless)
    requires Linkable(v)
    ensures Safe(NetlocText(v)) && NoneOf(NetlocText(v), {'/', '?', '#'})
  {
    var d := NatToString(v.port.value);
    DigitsPlain(v.port.value);
    Delimited(v.uuid.value);
    Delimited("@");
    Delimited(v.server.value);
    Delimited(":");
    Delimited(d);
    NoneOfConcat(v.uuid.value, "@", {'/', '?', '#'});
    NoneOfConcat(v.uuid.value + "@", v.server.value, {'/', '?', '#'});
    NoneOfConcat(v.uuid.value + "@" + v.server.value, ":", {'/', '?', '#'});
    NoneOfConcat(v.uuid.value + "@" + v.server.value + ":", d, {'/', '?', '#'});
  }

  lemma Delimited(s: string)
    requires '/' !in s && '?' !in s && '#' !in s
    ensures NoneOf(s, {'/', '?', '#'})
  {
    forall i | 0 <= i < |s| ensures s[i] !in {'/', '?', '#'} {
      assert s[i] in s;
    }
  }

  lemma NoneOfConcat(a: string, b: string, cs: set<char>)
    requires NoneOf(a, cs) && NoneOf(b, cs)
    ensures NoneOf(a + b, cs)
  {
    forall i | 0 <= i < |a + b| ensures (a + b)[i] !in cs {
      if i >= |a| {
        assert (a + b)[i] == b[i - |a|];
      }
    }
  }

  /** `urlsplit` cuts a record's link into its network location and query. */
  lemma LinkParts(v: Vless)
    requires Linkable(v)
    ensures StartsWith(VlessLink(v), Scheme)
    ensures SplitUrl(WithoutUnsafe(VlessLink(v)[|Scheme|..])) == UrlParts(NetlocText(v), Join(Fields(ParamList(v)), "&"))
  {
    var netloc := NetlocText(v);
    var query := Join(Fields(ParamList(v)), "&");
    var rest := netloc + "?" + query;
    var uri := VlessLink(v);
    assert uri == Scheme + rest;
    assert uri[|Scheme|..] == rest;
    QueryPlain(v);
    DigitsPlain(v.port.value);
    NetlocPlain(v);
    assert Safe(rest);
    WithoutUnsafeSafe(rest);
    SplitUrlOf(netloc, query);
  }

  /** A record whose parts a link carries unchanged is read back from its
      link: `parse_vless_uri` inverts `VlessLink`. */
  lemma VlessRoundTrip(v: Vless)
    requires Linkable(v)
    ensures ParseVlessUri(VlessLink(v)) == Some(v)
  {
    var uri := VlessLink(v);
    LinkParts(v);
    NetlocOf(v.uuid.value, v.server.value, v.port.value);
    QueryPlain(v);
    ParamsOfList(v);
    var parts := SplitUrl(WithoutUnsafe(uri[|Scheme|..]));
    assert LinkAccepted(parts);
    assert QueryPairs(parts.query) == ParamList(v);
  }

  /** Each parameter of a record's list is found under its own name. */
  lemma ParamsOfList(v: Vless)
    ensures var ps := ParamList(v);
      && Param(ps, "security", "none") == v.security && Param(ps, "sni", "") == v.sni
      && Param(ps, "type", "tcp") == v.network && Param(ps, "flow", "") == v.flow
      && Param(ps, "fp", "") == v.fp && Param(ps, "pbk", "") == v.pbk
      && Param(ps, "sid", "") == v.sid && Param(ps, "encryption", "none") == v.encryption
  {
    var ps := ParamList(v);
    assert Param(ps, "security", "none") == v.security by { ParamFirst(ps, "security", "none", 0); }
    assert Param(ps, "sni", "") == v.sni by { ParamFirst(ps, "sni", "", 1); }
    assert Param(ps, "type", "tcp") == v.network by { ParamFirst(ps, "type", "tcp", 2); }
    assert Param(ps, "flow", "") == v.flow by { ParamFirst(ps, "flow", "", 3); }
    assert Param(ps, "fp", "") == v.fp by { ParamFirst(ps, "fp", "", 4); }
    assert Param(ps, "pbk", "") == v.pbk by { ParamFirst(ps, "pbk", "", 5); }
    assert Param(ps, "sid", "") == v.sid by { ParamFirst(ps, "sid", "", 6); }
    assert Param(ps, "encryption", "none") == v.encryption by { ParamFirst(ps, "encryption", "none", 7); }
  }

  /** A character in no piece and not in the separator is not in the join. */
  lemma {:induction false} JoinKeeps(parts: seq<string>, sep: string)
    ensures forall c :: c in Join(parts, sep) ==> c in sep || exists k :: 0 <= k < |parts| && c in parts[k]
  {
    if |parts| > 1 {
      JoinKeeps(parts[1..], sep);
      assert forall k :: 1 <= k < |parts| ==> parts[1..][k - 1] == parts[k];
    }
  }

  // ---------------------------------------------------------------- generate_xray_config

  /** A string the record may lack, as `json.dump` writes it. */
  function TextOrNull(o: Option<string>): Json {
    if o.Some? then JStr(o.value) else JNull
  }

  function NumberOrNull(o: Option<nat>): Json {
    if o.Some? then JNum(o.value) else JNull
  }

  /** The single inbound of a config. */
  function Inbound(config: Json): Json {
    Item(At(config, "inbounds"), 0)
  }

  /** The single outbound of a config. */
  function Outbound(config: Json): Json {
    Item(At(config, "outbounds"), 0)
  }

  function Stream(config: Json): Json {
    At(Outbound(config), "streamSettings")
  }

  /** The one server of the outbound's `vnext` list. */
  function Vnext(config: Json): Json {
    Item(At(At(Outbound(config), "settings"), "vnext"), 0)
  }

  /** The one user of that server. */
  function User(config: Json): Json {
    Item(At(Vnext(config), "users"), 0)
  }

  predicate Single(v: Json) {
    v.JArr? && |v.items| == 1
  }

  /** The user entry of the outbound: the record's id and encryption, and
      `flow` exactly when the record has one. */
  predicate UserFits(v: Vless, user: Json) {
    && At(user, "id") == TextOrNull(v.uuid) && At(user, "encryption") == JStr(v.encryption)
    && (("flow" in Keys(user)) <==> v.flow != "")
    && (v.flow != "" ==> At(user, "flow") == JStr(v.flow))
    && Keys(user) == (if v.flow != "" then {"id", "encryption", "flow"} else {"id", "encryption"})
  }

  /** The stream settings: the record's transport, and a `security` key with
      its settings object only for `tls` and `reality`; REALITY falls back to
      the `chrome` fingerprint when the record names none. */
  predicate StreamFits(v: Vless, stream: Json) {
    && At(stream, "network") == JStr(v.network)
    && (("security" in Keys(stream)) <==> v.security == "tls" || v.security == "reality")
    && ("security" in Keys(stream) ==> At(stream, "security") == JStr(v.security))
    && (("tlsSettings" in Keys(stream)) <==> v.security == "tls")
    && (("realitySettings" in Keys(stream)) <==> v.security == "reality")
    && Keys(stream) <= {"network", "security", "tlsSettings", "realitySettings"}
    && (v.security == "tls" ==> At(stream, "tlsSettings") == JObj(map["serverName" := JStr(v.sni)]))
    && (v.security == "reality" ==>
          var reality := At(stream, "realitySettings");
          && Keys(reality) == {"serverName", "fingerprint", "publicKey", "shortId"}
          && At(reality, "serverName") == JStr(v.sni) && At(reality, "publicKey") == JStr(v.pbk)
          && At(reality, "shortId") == JStr(v.sid)
          && At(reality, "fingerprint") == JStr(if v.fp == "" then "chrome" else v.fp))
  }

  /** `generate_xray_config(vless, local_port)`: a SOCKS inbound on
      `127.0.0.1:local_port` and a VLESS outbound to the record's server,
      whose stream settings gain TLS or REALITY keys only for those two
      security modes, and whose user gains `flow` only when there is one. */
  method GenerateXrayConfig(v: Vless, localPort: int) returns (config: Json)
    ensures Keys(config) == {"inbounds", "outbounds"}
    ensures Single(At(config, "inbounds")) && Single(At(config, "outbounds"))
    ensures At(Inbound(config), "protocol") == JStr("socks") && At(Inbound(config), "listen") == JStr("127.0.0.1")
    ensures At(Inbound(config), "port") == JNum(localPort) && At(At(Inbound(config), "settings"), "udp") == JBool(true)
    ensures Keys(Inbound(config)) == {"port", "listen", "protocol", "settings"} && Keys(At(Inbound(config), "settings")) == {"udp"}
    ensures Keys(Outbound(config)) == {"protocol", "settings", "streamSettings"} && Keys(Vnext(config)) == {"address", "port", "users"}
    ensures At(Outbound(config), "protocol") == JStr("vless") && Single(At(At(Outbound(config), "settings"), "vnext"))
    ensures At(Vnext(config), "address") == TextOrNull(v.server) && At(Vnext(config), "port") == NumberOrNull(v.port)
    ensures Single(At(Vnext(config), "users"))
    ensures UserFits(v, User(config))
    ensures StreamFits(v, Stream(config))
  {
    var stream := StreamSettings(v);
    var user := UserEntry(v);
    var outbound := VlessOutbound(VnextEntry(v, JObj(user)), JObj(stream));
    config := ConfigOf(SocksInbound(localPort), outbound);
  }

  /** The top level: one inbound and one outbound. */
  function ConfigOf(inbound: Json, outbound: Json): (r: Json)
    ensures Keys(r) == {"inbounds", "outbounds"}
    ensures Single(At(r, "inbounds")) && Single(At(r, "outbounds"))
    ensures Inbound(r) == inbound && Outbound(r) == outbound
  {
    JObj(map["inbounds" := JArr([inbound]), "outbounds" := JArr([outbound])])
  }

  /** The SOCKS inbound on the local port, UDP on. */
  function SocksInbound(localPort: int): (r: Json)
    ensures At(r, "protocol") == JStr("socks") && At(r, "listen") == JStr("127.0.0.1")
    ensures At(r, "port") == JNum(localPort) && At(At(r, "settings"), "udp") == JBool(true)
    ensures Keys(r) == {"port", "listen", "protocol", "settings"} && Keys(At(r, "settings")) == {"udp"}
  {
    JObj(map["port" := JNum(localPort), "listen" := JStr("127.0.0.1"), "protocol" := JStr("socks"),
             "settings" := JObj(map["udp" := JBool(true)])])
  }

  /** The VLESS outbound to one server, with the stream settings. */
  function VlessOutbound(vnext: Json, stream: Json): (r: Json)
    ensures At(r, "protocol") == JStr("vless") && Single(At(At(r, "settings"), "vnext"))
    ensures Item(At(At(r, "settings"), "vnext"), 0) == vnext && At(r, "streamSettings") == stream
    ensures Keys(r) == {"protocol", "settings", "streamSettings"} && Keys(At(r, "settings")) == {"vnext"}
  {
    JObj(map["protocol" := JStr("vless"), "settings" := JObj(map["vnext" := JArr([vnext])]),
             "streamSettings" := stream])
  }

  /** The server entry: the record's address and port, and one user. */
  function VnextEntry(v: Vless, user: Json): (r: Json)
    ensures At(r, "address") == TextOrNull(v.server) && At(r, "port") == NumberOrNull(v.port)
    ensures Single(At(r, "users")) && Item(At(r, "users"), 0) == user
    ensures Keys(r) == {"address", "port", "users"}
  {
    JObj(map["address" := TextOrNull(v.server), "port" := NumberOrNull(v.port), "users" := JArr([user])])
  }

  /** `stream_settings`: the transport first, then the security keys. */
  method StreamSettings(v: Vless) returns (stream: map<string, Json>)
    ensures StreamFits(v, JObj(stream))
  {
    stream := map["network" := JStr(v.network)];
    if v.security == "tls" {
      stream := stream["security" := JStr("tls")];
      stream := stream["tlsSettings" := JObj(map["serverName" := JStr(v.sni)])];
    } else if v.security == "reality" {
      stream := stream["security" := JStr("reality")];
      stream := stream["realitySettings" := JObj(map["serverName" := JStr(v.sni),
                                                      "fingerprint" := JStr(if v.fp != "" then v.fp else "chrome"),
                                                      "publicKey" := JStr(v.pbk),
                                                      "shortId" := JStr(v.sid)])];
    }
  }

  /** `vnext["users"][0]`: id and encryption, then `flow` if there is one. */
  method UserEntry(v: Vless) returns (user: map<string, Json>)
    ensures UserFits(v, JObj(user))
  {
    user := map["id" := TextOrNull(v.uuid), "encryption" := JStr(v.encryption)];
    if v.flow != "" {
      user := user["flow" := JStr(v.flow)];
    }
  }

  // ---------------------------------------------------------------- calculate_remaining_time

  /** The formats tried, in order, on the stripped expiry text. */
  const ExpiryFormats: seq<Format> := [IsoDateTime, IsoDate]

  const Unparsable: string := "无法解析"
  const Expired: string := "\U{26A0}\U{FE0F} 已过期"
  const UnderAMinute: string := "不到1分钟"

  datatype Unit = Days | Hours | Minutes

  /** A non-zero count of one unit in the remaining-time text. */
  datatype Span = Span(amount: nat, unit: Unit)

  function UnitSeconds(u: Unit): nat {
    match u
    case Days => 86400
    case Hours => 3600
    case Minutes => 60
  }

  function UnitName(u: Unit): string {
    match u
    case Days => "天"
    case Hours => "小时"
    case Minutes => "分钟"
  }

  /** The number of seconds the spans add up to. */
  function SpanTotal(spans: seq<Span>): nat {
    if spans == [] then 0 else spans[0].amount * UnitSeconds(spans[0].unit) + SpanTotal(spans[1..])
  }

  predicate HasUnit(spans: seq<Span>, u: Unit) {
    exists k :: 0 <= k < |spans| && spans[k].unit == u
  }

  /** How much of the difference the text leaves out at most: less than an
      hour once days are shown, less than a minute otherwise. */
  function Grain(spans: seq<Span>): nat {
    if HasUnit(spans, Days) then 3600 else 60
  }

  /** A non-negative `timedelta` of `delta` microseconds as the script reads
      it: `diff.days`, `diff.seconds // 3600`, `diff.seconds % 3600 // 60`, and
      the microseconds below the minute. */
  datatype Clock = Clock(days: nat, hours: nat, minutes: nat, below: nat)

  function ClockOf(delta: nat): (c: Clock)
    ensures c.hours < 24 && c.minutes < 60 && c.below < 60000000
    ensures delta == c.days * 86400000000 + c.hours * 3600000000 + c.minutes * 60000000 + c.below
  {
    var seconds := delta % 86400000000 / 1000000;
    var c := Clock(delta / 86400000000, seconds / 3600, seconds % 3600 / 60,
                   seconds % 60 * 1000000 + delta % 1000000);
    assert delta % 86400000000 == seconds * 1000000 + delta % 1000000;
    assert seconds == c.hours * 3600 + c.minutes * 60 + seconds % 60;
    c
  }

  /** The counts `calculate_remaining_time` shows for a difference of `delta`
      microseconds: the days, then the hours, dropping zero counts, and the
      minutes only when there are no days. */
  function Breakdown(delta: nat): (r: seq<Span>)
    ensures forall k :: 0 <= k < |r| ==> r[k].amount > 0
    ensures forall j, k :: 0 <= j < k < |r| ==> UnitSeconds(r[j].unit) > UnitSeconds(r[k].unit)
    ensures SpanTotal(r) * 1000000 <= delta < (SpanTotal(r) + Grain(r)) * 1000000
    ensures r == [] <==> delta < 60000000
    ensures HasUnit(r, Minutes) ==> delta < 86400000000
  {
    var c := ClockOf(delta);
    ShownOrdered(c);
    ShownCounts(c);
    Shown(c)
  }

  /** The shown counts are positive and in decreasing order of unit. */
  lemma ShownOrdered(c: Clock)
    ensures forall k :: 0 <= k < |Shown(c)| ==> Shown(c)[k].amount > 0
    ensures forall j, k :: 0 <= j < k < |Shown(c)| ==> UnitSeconds(Shown(c)[j].unit) > UnitSeconds(Shown(c)[k].unit)
  {
  }

  /** What the shown counts add up to, and which units appear. */
  lemma ShownCounts(c: Clock)
    ensures SpanTotal(Shown(c)) == c.days * 86400 + c.hours * 3600 + (if c.days == 0 then c.minutes * 60 else 0)
    ensures HasUnit(Shown(c), Days) <==> c.days > 0
    ensures HasUnit(Shown(c), Minutes) ==> c.days == 0
    ensures Shown(c) == [] <==> c.days == 0 && c.hours == 0 && c.minutes == 0
  {
    var r := Shown(c);
    SpanTotalCounts(c.days, c.hours, if c.days == 0 then c.minutes else 0);
    assert c.days > 0 ==> r[0].unit == Days;
  }

  /** The days, if any. */
  function DaySpan(c: Clock): seq<Span> {
    if c.days > 0 then [Span(c.days, Days)] else []
  }

  /** The hours, if any. */
  function HourSpan(c: Clock): seq<Span> {
    if c.hours > 0 then [Span(c.hours, Hours)] else []
  }

  /** The minutes, if any and if there are no days. */
  function MinuteSpan(c: Clock): seq<Span> {
    if c.minutes > 0 && c.days == 0 then [Span(c.minutes, Minutes)] else []
  }

  function Shown(c: Clock): seq<Span> {
    DaySpan(c) + HourSpan(c) + MinuteSpan(c)
  }

  /** The total of up to three spans, each present when its count is not zero. */
  lemma SpanTotalCounts(days: nat, hours: nat, minutes: nat)
    ensures SpanTotal((if days > 0 then [Span(days, Days)] else [])
                    + (if hours > 0 then [Span(hours, Hours)] else [])
                    + (if minutes > 0 then [Span(minutes, Minutes)] else []))
            == days * 86400 + hours * 3600 + minutes * 60
  {
    var a := if days > 0 then [Span(days, Days)] else [];
    var b := if hours > 0 then [Span(hours, Hours)] else [];
    var c := if minutes > 0 then [Span(minutes, Minutes)] else [];
    SpanTotalAppend(a + b, c);
    SpanTotalAppend(a, b);
  }

  lemma {:induction false} SpanTotalAppend(a: seq<Span>, b: seq<Span>)
    ensures SpanTotal(a + b) == SpanTotal(a) + SpanTotal(b)
  {
    if a == [] {
      assert a + b == b;
    } else {
      assert (a + b)[1..] == a[1..] + b;
      SpanTotalAppend(a[1..], b);
    }
  }

  function SpanText(span: Span): string {
    IntToString(span.amount) + UnitName(span.unit)
  }

  function SpanTexts(spans: seq<Span>): (r: seq<string>)
    ensures |r| == |spans| && forall k :: 0 <= k < |spans| ==> r[k] == SpanText(spans[k])
  {
    seq(|spans|, k requires 0 <= k < |spans| => SpanText(spans[k]))
  }

  /** The counts joined by spaces, or `不到1分钟` when there are none. */
  function Render(spans: seq<Span>): string {
    if spans == [] then UnderAMinute else Join(SpanTexts(spans), " ")
  }

  /** The difference from `now` to `expiry`, in microseconds. */
  function Delta(expiry: DateTime, now: Moment): int
    requires ValidDateTime(expiry) && ValidMoment(now)
  {
    Seconds(expiry) * 1000000 - Micros(now)
  }

  /** What `calculate_remaining_time(expiry_text)` returns at `now`. */
  function RemainingTime(expiryText: string, now: Moment): string
    requires ValidMoment(now)
  {
    RemainingFrom(FirstParse(ExpiryFormats, Strip(expiryText)), now)
  }

  /** The remaining-time text for an expiry that parsed to `parsed`. */
  function RemainingFrom(parsed: Option<DateTime>, now: Moment): string
    requires ValidMoment(now) && (parsed.Some? ==> ValidDateTime(parsed.value))
  {
    match parsed
    case None => Unparsable
    case Some(expiry) =>
      var delta := Delta(expiry, now);
      if delta < 0 then Expired else Render(Breakdown(delta))
  }

  /** `calculate_remaining_time(expiry_text)`, the clock reading `now` given. */
  method CalculateRemainingTime(expiryText: string, now: Moment) returns (r: string)
    requires ValidMoment(now)
    ensures r == RemainingTime(expiryText, now)
  {
    var expiry := ParseFirst(ExpiryFormats, Strip(expiryText));
    assert RemainingTime(expiryText, now) == RemainingFrom(expiry, now);
    if expiry.None? {
      return Unparsable;
    }
    var delta := Seconds(expiry.value) * 1000000 - Micros(now);
    if delta < 0 {
      return Expired;
    }
    assert delta == Delta(expiry.value, now);
    r := FormatRemaining(delta);
  }

  /** The part of `calculate_remaining_time` that collects the counts in
      `parts` and joins them. */
  method FormatRemaining(delta: nat) returns (r: string)
    ensures r == Render(Breakdown(delta))
  {
    var diff := ClockOf(delta);
    var days, hours, minutes := diff.days, diff.hours, diff.minutes;
    ghost var spans := Breakdown(delta);
    assert spans == Shown(diff);
    var parts: seq<string> := [];
    if days > 0 {
      parts := parts + [IntToString(days) + "天"];
    }
    assert parts == SpanTexts(DaySpan(diff));
    if hours > 0 {
      parts := parts + [IntToString(hours) + "小时"];
    }
    assert parts == SpanTexts(DaySpan(diff) + HourSpan(diff)) by {
      SpanTextsAppend(DaySpan(diff), HourSpan(diff));
    }
    if minutes > 0 && days == 0 {
      parts := parts + [IntToString(minutes) + "分钟"];
    }
    assert parts == SpanTexts(spans) by {
      SpanTextsAppend(DaySpan(diff) + HourSpan(diff), MinuteSpan(diff));
    }
    r := if parts != [] then Join(parts, " ") else UnderAMinute;
  }

  lemma SpanTextsAppend(a: seq<Span>, b: seq<Span>)
    ensures SpanTexts(a + b) == SpanTexts(a) + SpanTexts(b)
  {
  }

  /** A rendered breakdown with counts starts with a digit. */
  lemma RenderStartsWithDigit(spans: seq<Span>)
    requires spans != [] && spans[0].amount > 0
    ensures |Render(spans)| > 0 && IsDigit(Render(spans)[0])
  {
    var texts := SpanTexts(spans);
    assert texts[0] == NatToString(spans[0].amount) + UnitName(spans[0].unit);
    assert texts[0][0] == NatToString(spans[0].amount)[0];
    if |texts| > 1 {
      assert Join(texts, " ") == texts[0] + " " + Join(texts[1..], " ");
    }
  }

  /** The three fixed texts over a parse result: `无法解析` exactly when nothing
      parsed, `已过期` exactly when the expiry lies before `now`, `不到1分钟`
      exactly when it lies less than a minute ahead; every other reading
      starts with a digit. */
  lemma RemainingCases(parsed: Option<DateTime>, now: Moment)
    requires ValidMoment(now) && (parsed.Some? ==> ValidDateTime(parsed.value))
    ensures RemainingFrom(parsed, now) == Unparsable <==> parsed.None?
    ensures RemainingFrom(parsed, now) == Expired <==> parsed.Some? && Delta(parsed.value, now) < 0
    ensures RemainingFrom(parsed, now) == UnderAMinute <==> parsed.Some? && 0 <= Delta(parsed.value, now) < 60000000
  {
    if parsed.Some? && Delta(parsed.value, now) >= 60000000 {
      RenderStartsWithDigit(Breakdown(Delta(parsed.value, now)));
    }
  }

  /** The text says `无法解析` exactly when neither format parses. */
  lemma UnparsableIff(expiryText: string, now: Moment)
    requires ValidMoment(now)
    ensures RemainingTime(expiryText, now) == Unparsable <==> FirstParse(ExpiryFormats, Strip(expiryText)).None?
  {
    RemainingCases(FirstParse(ExpiryFormats, Strip(expiryText)), now);
  }

  /** The text says the server has expired exactly when the expiry parses
      and lies before `now`. */
  lemma ExpiredIff(expiryText: string, now: Moment)
    requires ValidMoment(now)
    ensures var t := FirstParse(ExpiryFormats, Strip(expiryText));
      RemainingTime(expiryText, now) == Expired <==> t.Some? && Delta(t.value, now) < 0
  {
    RemainingCases(FirstParse(ExpiryFormats, Strip(expiryText)), now);
  }

  /** `不到1分钟` exactly when the expiry is less than a minute ahead. */
  lemma UnderAMinuteIff(expiryText: string, now: Moment)
    requires ValidMoment(now)
    ensures var t := FirstParse(ExpiryFormats, Strip(expiryText));
      RemainingTime(expiryText, now) == UnderAMinute <==> t.Some? && 0 <= Delta(t.value, now) < 60000000
  {
    RemainingCases(FirstParse(ExpiryFormats, Strip(expiryText)), now);
  }

  // ---------------------------------------------------------------- parse_renew_error, is_cooldown_error

  /** The first entry of the body's `errors` list (`null` where there is none). */
  function FirstError(body: Json): Json {
    Item(At(body, "errors"), 0)
  }

  /** `parse_renew_error(body)`, `shown` being `str(body)`: the `detail` of the
      first error when that error is an object, `str(body)` when it has no
      `detail`, and `str(body)` for every other body (including the ones on
      which indexing `errors[0]` raises). The detail is whatever JSON value
      the object holds there. */
  function ParseRenewError(body: Json, shown: string): (r: Json)
    ensures FirstError(body).JObj? && "detail" in Keys(FirstError(body)) ==> r == At(FirstError(body), "detail")
    ensures !(FirstError(body).JObj? && "detail" in Keys(FirstError(body))) ==> r == JStr(shown)
  {
    if body.JObj? && "errors" in body.fields then
      var errors := body.fields["errors"];
      if Truthy(errors) && errors.JArr? && errors.items[0].JObj? then
        Get(errors.items[0].fields, "detail", JStr(shown))
      else JStr(shown)
    else JStr(shown)
  }

  /** The phrases of a refusal during the cooldown period, in lower case. */
  const CooldownKeywords: seq<string> :=
    ["can only once at one time period", "can't renew", "cannot renew", "already renewed"]

  /** `is_cooldown_error(detail)`. */
  predicate IsCooldownError(detail: string) {
    exists k :: 0 <= k < |CooldownKeywords| && Contains(Lower(detail), CooldownKeywords[k])
  }

  /** Lower-casing keeps an occurrence of a lower-case phrase. */
  lemma LowerKeepsLowerPhrase(s: string, p: string)
    requires Contains(s, p) && Lower(p) == p
    ensures Contains(Lower(s), p)
  {
    var i: nat :| i <= |s| && OccursAt(s, p, i);
    assert Lower(s)[i..i + |p|] == Lower(s[i..i + |p|]);
    assert OccursAt(Lower(s), p, i);
  }

  /** A detail quoting one of the phrases, in any capitalisation, is a
      cooldown refusal. */
  lemma CooldownQuoted(detail: string, k: nat)
    requires k < |CooldownKeywords| && Contains(Lower(detail), Lower(CooldownKeywords[k]))
    ensures IsCooldownError(detail)
  {
    assert Lower(CooldownKeywords[k]) == CooldownKeywords[k];
  }

  /** Whether a detail is a cooldown refusal does not depend on its case. */
  lemma CooldownIgnoresCase(detail: string)
    ensures IsCooldownError(Lower(detail)) == IsCooldownError(detail)
  {
    LowerIdempotent(detail);
  }

  // ---------------------------------------------------------------- try_renew_with_proxy

  /** The captured `/renew` POST response: its status, its body (`response.json()`,
      or the text as a string when that fails) and `str(body)`. */
  datatype Response = Response(status: int, body: Json, shown: string)

  /** What one browser session through a proxy meets, step by step: whether
      the page got ready, the URL it ended on, whether the renew button, the
      Turnstile check and the dialog's button came through, the response
      captured within the wait, and the `remember_web` cookie afterwards;
      or the exception (by its `repr`) that interrupted the session. */
  datatype Visit =
    | Visit(ready: bool, url: string, renewButton: bool, turnstilePassed: bool, modalButton: bool,
            response: Option<Response>, cookieAfter: Option<string>)
    | Raised(repr: string)

  /** The result dictionary of `try_renew_with_proxy`. */
  datatype Attempt = Attempt(success: bool, needRetry: bool, message: string, newCookie: Option<string>)

  predicate LoginPage(url: string) {
    Contains(url, "/auth/login") || Contains(url, "/login")
  }

  /** The session got as far as submitting the renewal. */
  predicate Submitted(visit: Visit) {
    visit.Visit? && visit.ready && !LoginPage(visit.url) && visit.renewButton
      && visit.turnstilePassed && visit.modalButton
  }

  /** `repr` of the `AttributeError` that `detail.lower()` raises on a detail
      that is not a string. */
  function NoLower(detail: Json): string {
    "AttributeError(\"'" + TypeName(detail) + "' object has no attribute 'lower'\")"
  }

  /** A renewed cookie is reported when it is set and differs from the one sent. */
  function FreshCookie(after: Option<string>, sent: string): (r: Option<string>)
    ensures r.Some? <==> after.Some? && after.value != "" && after.value != sent
    ensures r.Some? ==> r == after
  {
    if after.Some? && after.value != "" && after.value != sent then after else None
  }

  /** The outcome the status mapping of `try_renew_with_proxy` assigns to a
      submitted renewal that produced `response`. */
  function Judge(response: Response): (r: Attempt)
    ensures r.success <==> Accepted(response)
    ensures r.success ==> !r.needRetry && r.message == ""
    ensures r.newCookie.None?
    ensures r.needRetry <==> response.status == 400 && !ParseRenewError(response.body, response.shown).JStr?
    ensures r.needRetry ==> r.message == "异常: " + NoLower(ParseRenewError(response.body, response.shown))
    ensures !r.success && !r.needRetry && response.status == 400 ==>
              r.message == "续期失败: " + ParseRenewError(response.body, response.shown).s
    ensures response.status !in {200, 201, 204, 400} ==> r.message == "HTTP " + IntToString(response.status)
  {
    if response.status == 200 || response.status == 201 || response.status == 204 then
      Attempt(true, false, "", None)
    else if response.status == 400 then
      var detail := ParseRenewError(response.body, response.shown);
      if !detail.JStr? then Attempt(false, true, "异常: " + NoLower(detail), None)
      else if IsCooldownError(detail.s) then Attempt(true, false, "", None)
      else Attempt(false, false, "续期失败: " + detail.s, None)
    else Attempt(false, false, "HTTP " + IntToString(response.status), None)
  }

  /** The response counts as renewed: a 2xx status, or 400 with a cooldown detail. */
  predicate Accepted(response: Response) {
    || response.status == 200 || response.status == 201 || response.status == 204
    || (response.status == 400 && ParseRenewError(response.body, response.shown).JStr?
        && IsCooldownError(ParseRenewError(response.body, response.shown).s))
  }

  /** `try_renew_with_proxy(...)` for a session that meets `visit`, sending
      the cookie `sent`. */
  function TryRenew(visit: Visit, sent: string): (r: Attempt)
    ensures r.success <==> Submitted(visit) && visit.response.Some? && Accepted(visit.response.value)
    ensures r.success ==> !r.needRetry && r.message == ""
    ensures !r.success && !r.needRetry ==> r.message != "" && visit.Visit? && visit.ready
    ensures r.newCookie.Some? ==> r.newCookie.value != "" && r.newCookie.value != sent
    ensures Submitted(visit) && visit.response.Some? && visit.response.value.status !in {200, 201, 204, 400} ==>
              r == Attempt(false, false, "HTTP " + IntToString(visit.response.value.status),
                           FreshCookie(visit.cookieAfter, sent))
    ensures Submitted(visit) && visit.response.None? ==> r.needRetry
    ensures !Submitted(visit) ==> r.newCookie.None? && (r.needRetry <==> !(visit.Visit? && visit.ready && LoginPage(visit.url)))
    ensures Submitted(visit) && visit.response.Some? && !Judge(visit.response.value).needRetry ==>
              r == Judge(visit.response.value).(newCookie := FreshCookie(visit.cookieAfter, sent))
    ensures Submitted(visit) && visit.response.Some? && Judge(visit.response.value).needRetry ==>
              r == Judge(visit.response.value)
    ensures Submitted(visit) && visit.response.None? ==>
              r == Attempt(false, true, "未检测到续期 API 响应", FreshCookie(visit.cookieAfter, sent))
    ensures visit.Raised? ==> r == Attempt(false, true, "异常: " + visit.repr, None)
    ensures visit.Visit? && !visit.ready ==> r == Attempt(false, true, "页面加载超时", None)
    ensures visit.Visit? && visit.ready && LoginPage(visit.url) ==> r == Attempt(false, false, "Cookie 已失效", None)
    ensures visit.Visit? && visit.ready && !LoginPage(visit.url) && !visit.renewButton ==>
              r == Attempt(false, true, "未找到续期按钮", None)
    ensures visit.Visit? && visit.ready && !LoginPage(visit.url) && visit.renewButton && !visit.turnstilePassed ==>
              r == Attempt(false, true, "Turnstile 验证超时", None)
    ensures visit.Visit? && visit.ready && !LoginPage(visit.url) && visit.renewButton && visit.turnstilePassed
            && !visit.modalButton ==>
              r == Attempt(false, true, "未找到弹窗中的续期按钮", None)
  {
    match visit
    case Raised(repr) => Attempt(false, true, "异常: " + repr, None)
    case Visit(ready, url, button, turnstile, modal, response, after) =>
      if !ready then Attempt(false, true, "页面加载超时", None)
      else if LoginPage(url) then Attempt(false, false, "Cookie 已失效", None)
      else if !button then Attempt(false, true, "未找到续期按钮", None)
      else if !turnstile then Attempt(false, true, "Turnstile 验证超时", None)
      else if !modal then Attempt(false, true, "未找到弹窗中的续期按钮", None)
      else match response
        case None => Attempt(false, true, "未检测到续期 API 响应", FreshCookie(after, sent))
        case Some(resp) =>
          var judged := Judge(resp);
          if judged.needRetry then judged
          else judged.(newCookie := FreshCookie(after, sent))
  }

  /** A 400 answer is a success exactly for a cooldown detail, and otherwise
      a failure that names the detail and is not retried through another
      proxy; a detail that is not a string breaks the cooldown check, which
      the session reports as an exception to retry. */
  lemma BadRequest(visit: Visit, sent: string)
    requires Submitted(visit) && visit.response.Some? && visit.response.value.status == 400
    ensures var resp := visit.response.value;
      var detail := ParseRenewError(resp.body, resp.shown);
      var r := TryRenew(visit, sent);
      && (detail.JStr? && IsCooldownError(detail.s) ==> r.success)
      && (detail.JStr? && !IsCooldownError(detail.s) ==> !r.success && !r.needRetry && r.message == "续期失败: " + detail.s)
      && (!detail.JStr? ==> !r.success && r.needRetry && r.message == "异常: " + NoLower(detail))
  {
  }

  // ---------------------------------------------------------------- add_server_time

  /** A way to reach the site: the proxy server (none for a direct
      connection) and its label. */
  datatype Proxy = Proxy(server: Option<string>, name: string)

  /** The local Xray client's SOCKS endpoint, `socks5://127.0.0.1:{XRAY_LOCAL_PORT}`. */
  const VlessProxy: Proxy := Proxy(Some("socks5://127.0.0.1:10808"), "VLESS")

  /** The endpoint is written with the port the Xray client listens on. */
  lemma VlessProxyPort()
    ensures VlessProxy.server == Some("socks5://127.0.0.1:" + NatToString(XrayLocalPort))
  {
    assert DigitChar(0) == '0' && DigitChar(1) == '1' && DigitChar(8) == '8';
    assert NatToString(10808) == NatToString(1080) + "8";
    assert NatToString(1080) == NatToString(108) + "0";
    assert NatToString(108) == NatToString(10) + "8";
    assert NatToString(1) == "1";
    assert NatToString(10) == "10";
    assert NatToString(XrayLocalPort) == "10808";
    assert "socks5://127.0.0.1:" + "10808" == "socks5://127.0.0.1:10808";
  }

  const DirectProxy: Proxy := Proxy(None, "直连")

  /** Every entry is one of the two proxies, and the VLESS one comes first. */
  predicate VlessFirst(proxies: seq<Proxy>) {
    && (forall k :: 0 <= k < |proxies| ==> proxies[k] == VlessProxy || proxies[k] == DirectProxy)
    && (forall j, k :: 0 <= j < k < |proxies| ==> proxies[j] == VlessProxy && proxies[k] == DirectProxy)
  }

  /** The `proxies` list of `add_server_time`: the VLESS proxy when a link is
      set, parses and its Xray client is running (`xrayRunning`), then the
      direct connection when `ENABLE_DIRECT` is on. */
  method BuildProxies(vlessUri: string, xrayRunning: bool) returns (proxies: seq<Proxy>)
    ensures (VlessProxy in proxies) <==> vlessUri != "" && ParseVlessUri(vlessUri).Some? && xrayRunning
    ensures (DirectProxy in proxies) <==> EnableDirect
    ensures VlessFirst(proxies)
  {
    var vlessReady := false;
    if vlessUri != "" {
      var vless := ParseVlessUri(vlessUri);
      vlessReady := vless.Some? && xrayRunning;
    }
    proxies := AppendProxies(vlessReady, EnableDirect);
  }

  /** The appends of `add_server_time`: the VLESS proxy when `vless`, then
      the direct connection when `direct`. */
  method AppendProxies(vless: bool, direct: bool) returns (proxies: seq<Proxy>)
    ensures (VlessProxy in proxies) <==> vless
    ensures (DirectProxy in proxies) <==> direct
    ensures VlessFirst(proxies)
  {
    proxies := [];
    if vless {
      proxies := proxies + [VlessProxy];
    }
    if direct {
      proxies := proxies + [DirectProxy];
    }
  }

  /** How `add_server_time` ends: the cookie is missing, no proxy is
      available, the attempt through proxy `via` renewed, the attempt through
      proxy `via` failed without retry (reporting its message if it has one),
      or every proxy failed. */
  datatype Report =
    | CookieMissing
    | NoProxy
    | Renewed(via: nat)
    | GaveUp(via: nat, notice: Option<string>)
    | AllFailed

  /** Every attempt before the `n`-th failed and asked for another proxy. */
  predicate RetriedBefore(visits: seq<Visit>, sent: string, n: nat)
    requires n <= |visits|
  {
    forall j :: 0 <= j < n ==> !TryRenew(visits[j], sent).success && TryRenew(visits[j], sent).needRetry
  }

  /** The new cookies the first `n` attempts store as a secret, in order. */
  function SecretUpdates(visits: seq<Visit>, sent: string, n: nat): seq<string>
    requires n <= |visits|
  {
    if n == 0 then []
    else
      var update := TryRenew(visits[n - 1], sent).newCookie;
      SecretUpdates(visits, sent, n - 1) + (if update.Some? then [update.value] else [])
  }

  /** The number of attempts a report comes from. */
  function Tried(report: Report, count: nat): nat {
    match report
    case Renewed(via) => via + 1
    case GaveUp(via, _) => via + 1
    case AllFailed => count
    case _ => 0
  }

  /** What `add_server_time` over `proxies` reports when the session through
      `proxies[i]` meets `visits[i]` and the stripped cookie is `sent`: the
      proxies are tried in order until one renews or fails without asking
      for a retry, and every fresh cookie an attempt brings back is stored
      (`secrets`, in order). */
  predicate Reported(sent: string, proxies: seq<Proxy>, visits: seq<Visit>, report: Report, secrets: seq<string>) {
    && (report == CookieMissing <==> sent == "")
    && (report == NoProxy <==> sent != "" && proxies == [])
    && (report.Renewed? ==> report.via < |visits| && TryRenew(visits[report.via], sent).success
                             && RetriedBefore(visits, sent, report.via))
    && (report.GaveUp? ==> report.via < |visits| && !TryRenew(visits[report.via], sent).success
                            && !TryRenew(visits[report.via], sent).needRetry
                            && RetriedBefore(visits, sent, report.via)
                            && report.notice == (if TryRenew(visits[report.via], sent).message == "" then None
                                                 else Some(TryRenew(visits[report.via], sent).message)))
    && (report == AllFailed <==> sent != "" && proxies != [] && RetriedBefore(visits, sent, |visits|))
    && Tried(report, |visits|) <= |visits|
    && secrets == SecretUpdates(visits, sent, Tried(report, |visits|))
  }

  /** `add_server_time`: the cookie setting is stripped first. */
  method AddServerTime(cookieSetting: string, proxies: seq<Proxy>, visits: seq<Visit>)
    returns (report: Report, secrets: seq<string>)
    requires |visits| == |proxies|
    ensures Reported(Strip(cookieSetting), proxies, visits, report, secrets)
  {
    report, secrets := RenewVia(Strip(cookieSetting), proxies, visits);
  }

  /** The body of `add_server_time` once the cookie is read. */
  method RenewVia(sent: string, proxies: seq<Proxy>, visits: seq<Visit>)
    returns (report: Report, secrets: seq<string>)
    requires |visits| == |proxies|
    ensures Reported(sent, proxies, visits, report, secrets)
  {
    if sent == "" {
      return CookieMissing, [];
    }
    if proxies == [] {
      return NoProxy, [];
    }
    var stop;
    stop, secrets := TryProxies(visits, sent);
    if stop.None? {
      return AllFailed, secrets;
    }
    var result := TryRenew(visits[stop.value], sent);
    if result.success {
      return Renewed(stop.value), secrets;
    }
    return GaveUp(stop.value, if result.message != "" then Some(result.message) else None), secrets;
  }

  /** The loop of `add_server_time` over the proxies: the first attempt that
      does not ask for another proxy ends it, and every fresh cookie an
      attempt brings back is stored on the way. */
  method TryProxies(visits: seq<Visit>, sent: string) returns (stop: Option<nat>, secrets: seq<string>)
    ensures stop.Some? ==> stop.value < |visits| && RetriedBefore(visits, sent, stop.value)
                           && !(!TryRenew(visits[stop.value], sent).success && TryRenew(visits[stop.value], sent).needRetry)
    ensures stop.None? ==> RetriedBefore(visits, sent, |visits|)
    ensures secrets == SecretUpdates(visits, sent, if stop.Some? then stop.value + 1 else |visits|)
  {
    secrets := [];
    for i := 0 to |visits|
      invariant RetriedBefore(visits, sent, i)
      invariant secrets == SecretUpdates(visits, sent, i)
    {
      var result := TryRenew(visits[i], sent);
      if result.newCookie.Some? {
        secrets := secrets + [result.newCookie.value];
      }
      if result.success || !result.needRetry {
        return Some(i), secrets;
      }
    }
    return None, secrets;
  }
}
