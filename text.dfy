/** The handful of Python string operations the renewal scripts rely on:
    `str.strip()`, `str.lower()`, `in`, `str.split`, `str.split(sep, 1)`,
    `int()`, `str()` of an integer and the ordering `<` of strings. */
module Text {
  import opened Wrappers

  // ---------------------------------------------------------------- whitespace

  /** Python's `str.isspace()` for a single character: the characters `strip()`
      removes and the regex class `\s` matches. */
  predicate IsSpace(c: char) {
    || c == ' ' || ('\t' <= c <= '\r') || ('\U{1C}' <= c <= '\U{1F}')
    || c == '\U{85}' || c == '\U{A0}' || c == '\U{1680}'
    || ('\U{2000}' <= c <= '\U{200A}') || c == '\U{2028}' || c == '\U{2029}'
    || c == '\U{202F}' || c == '\U{205F}' || c == '\U{3000}'
  }

  predicate AllSpace(s: string) {
    forall i :: 0 <= i < |s| ==> IsSpace(s[i])
  }

  /** Neither end of `s` is whitespace. */
  predicate IsStripped(s: string) {
    s == [] || (!IsSpace(s[0]) && !IsSpace(s[|s| - 1]))
  }

  function StripLeft(s: string): (r: string)
    ensures |r| <= |s| && r == s[|s| - |r|..]
    ensures AllSpace(s[..|s| - |r|])
    ensures r == [] || !IsSpace(r[0])
  {
    if s != [] && IsSpace(s[0]) then
      var r := StripLeft(s[1..]);
      assert s[..|s| - |r|] == [s[0]] + s[1..][..|s| - 1 - |r|];
      r
    else s
  }

  function StripRight(s: string): (r: string)
    ensures |r| <= |s| && r == s[..|r|]
    ensures AllSpace(s[|r|..])
    ensures r == [] || !IsSpace(r[|r| - 1])
  {
    if s != [] && IsSpace(s[|s| - 1]) then
      var r := StripRight(s[..|s| - 1]);
      assert s[|r|..] == s[..|s| - 1][|r|..] + [s[|s| - 1]];
      r
    else s
  }

  /** Python's `s.strip()`: `s` is `r` with whitespace runs added at both ends,
      and `r` itself neither starts nor ends with whitespace. */
  function Strip(s: string): (r: string)
    ensures IsStripped(r)
  {
    StripLeft(StripRight(s))
  }

  /** `strip()` keeps a middle part of the text and removes only white space
      around it. */
  lemma StripTrims(s: string)
    ensures var j := |StripRight(s)|;
            var i := j - |Strip(s)|;
            0 <= i <= j <= |s| && Strip(s) == s[i..j] && AllSpace(s[..i]) && AllSpace(s[j..])
  {
    var right := StripRight(s);
    var j := |right|;
    var left := StripLeft(right);
    var i := j - |left|;
    PrefixSlices(s, i, j);
  }

  /** A string without whitespace at either end is its own `strip()`. */
  lemma StripStripped(s: string)
    requires IsStripped(s)
    ensures Strip(s) == s
  {
  }

  /** Stripping removes characters and never adds one. */
  lemma StripKeeps(s: string, c: char)
    requires c !in s
    ensures c !in Strip(s)
  {
    var t := StripRight(s);
    SliceKeeps(s, 0, |t|, c);
    SliceKeeps(t, |t| - |StripLeft(t)|, |t|, c);
  }

  /** A slice holds no character its string lacks. */
  lemma SliceKeeps(s: string, i: nat, j: nat, c: char)
    requires i <= j <= |s| && c !in s
    ensures c !in s[i..j]
  {
    assert forall n :: 0 <= n < j - i ==> s[i..j][n] == s[i + n];
  }

  // ---------------------------------------------------------------- case

  /** `str.lower()` on one character, for the Latin and Cyrillic capitals. */
  function LowerChar(c: char): char {
    if 'A' <= c <= 'Z' || '\U{0410}' <= c <= '\U{042F}' then (c as int + 32) as char
    else if '\U{0400}' <= c <= '\U{040F}' then (c as int + 80) as char
    else c
  }

  function Lower(s: string): (r: string)
    ensures |r| == |s|
    ensures forall i :: 0 <= i < |s| ==> r[i] == LowerChar(s[i])
  {
    seq(|s|, i requires 0 <= i < |s| => LowerChar(s[i]))
  }

  /** Lower-casing twice is lower-casing once. */
  lemma LowerIdempotent(s: string)
    ensures Lower(Lower(s)) == Lower(s)
  {
  }

  // ---------------------------------------------------------------- substrings

  predicate OccursAt(s: string, p: string, i: nat) {
    i + |p| <= |s| && s[i..i + |p|] == p
  }

  /** Python's `p in s` for strings. */
  predicate Contains(s: string, p: string) {
    exists i: nat :: i <= |s| && OccursAt(s, p, i)
  }

  /** Python's `s.startswith(p)`. */
  predicate StartsWith(s: string, p: string) {
    |p| <= |s| && s[..|p|] == p
  }

  lemma ContainsAt(s: string, p: string, i: nat)
    requires OccursAt(s, p, i)
    ensures Contains(s, p)
  {
  }

  /** Whatever occurs in a piece of a string occurs in the string. */
  lemma {:induction false} ContainsInPiece(s: string, k: nat, m: nat, p: string)
    requires k <= m <= |s| && Contains(s[k..m], p)
    ensures Contains(s, p)
  {
    var i: nat :| i <= |s[k..m]| && OccursAt(s[k..m], p, i);
    assert i + |p| <= m - k;
    forall t | 0 <= t < |p| ensures s[k + i + t] == p[t] {
      assert s[k..m][i..i + |p|][t] == p[t];
    }
    assert s[k + i..k + i + |p|] == p;
    assert OccursAt(s, p, k + i);
  }

  /** A text without the first character of `p` does not contain `p`. */
  lemma ContainsHead(s: string, p: string)
    requires p != [] && p[0] !in s
    ensures !Contains(s, p)
  {
    forall i: nat | i <= |s| ensures !OccursAt(s, p, i) {
      if i + |p| <= |s| {
        assert s[i..i + |p|][0] == s[i];
      }
    }
  }

  /** Python's `s[:n]`. */
  function Take(s: string, n: nat): (r: string)
    ensures |r| == (if |s| < n then |s| else n) && r == s[..|r|]
  {
    if |s| < n then s else s[..n]
  }

  /** Where the longest run of characters satisfying `p` from `i` ends: how
      far a greedy `\s*` or `\d+` reaches. */
  function RunEnd(s: string, i: nat, p: char -> bool): (k: nat)
    requires i <= |s|
    decreases |s| - i
    ensures i <= k <= |s|
    ensures forall j :: i <= j < k ==> p(s[j])
    ensures k == |s| || !p(s[k])
  {
    if i < |s| && p(s[i]) then RunEnd(s, i + 1, p) else i
  }

  /** A run that stops at `k` ends at `k`. */
  lemma {:induction false} RunEndIs(s: string, i: nat, k: nat, p: char -> bool)
    requires i <= k <= |s|
    requires forall j :: i <= j < k ==> p(s[j])
    requires k == |s| || !p(s[k])
    decreases k - i
    ensures RunEnd(s, i, p) == k
  {
    if i < k {
      RunEndIs(s, i + 1, k, p);
    }
  }

  /** The least index in `[from, n)` at which `p` holds. */
  function FirstFrom(from: nat, n: nat, p: nat -> bool): (r: Option<nat>)
    decreases n - from
    ensures r.Some? ==> from <= r.value < n && p(r.value)
    ensures r.Some? ==> forall j: nat :: from <= j < r.value ==> !p(j)
    ensures r.None? ==> forall j: nat :: from <= j < n ==> !p(j)
  {
    if from >= n then None
    else if p(from) then Some(from)
    else FirstFrom(from + 1, n, p)
  }

  /** The first position in `s` of a character of `seps`. */
  function FirstOf(s: string, seps: set<char>): (r: Option<nat>)
    ensures r.Some? ==> r.value < |s| && s[r.value] in seps && NoneOf(s[..r.value], seps)
    ensures r.None? <==> NoneOf(s, seps)
  {
    var p := (i: nat) => i < |s| && s[i] in seps;
    assert forall j: nat :: p(j) == (j < |s| && s[j] in seps);
    var r := FirstFrom(0, |s|, p);
    if r.Some? then
      assert forall j: nat :: j < r.value ==> s[..r.value][j] == s[j];
      r
    else r
  }

  /** The first position of `c` in `s` (Python's `s.find(c)`, absent for -1). */
  function IndexOf(s: string, c: char): (r: Option<nat>)
    decreases |s|
    ensures r.Some? ==> r.value < |s| && s[r.value] == c && c !in s[..r.value]
    ensures r.None? <==> c !in s
  {
    if s == [] then None
    else if s[0] == c then Some(0)
    else match IndexOf(s[1..], c)
      case None => None
      case Some(i) =>
        assert s[..i + 1] == [s[0]] + s[1..][..i];
        Some(i + 1)
  }

  // ---------------------------------------------------------------- splitting

  predicate NoneOf(s: string, seps: set<char>) {
    forall i :: 0 <= i < |s| ==> s[i] !in seps
  }

  /** The number of characters of `s` that belong to `seps`. */
  function CountIn(s: string, seps: set<char>): nat {
    if s == [] then 0 else (if s[0] in seps then 1 else 0) + CountIn(s[1..], seps)
  }

  /** `s` cut at every character of `seps`, empty pieces included: Python's
      `s.split(c)` for `seps == {c}` and `re.split('[...]', s)` for a class. */
  function Split(s: string, seps: set<char>): (parts: seq<string>)
    decreases |s|
    ensures |parts| == CountIn(s, seps) + 1
    ensures forall k :: 0 <= k < |parts| ==> NoneOf(parts[k], seps)
  {
    match FirstOf(s, seps)
    case None =>
      CountNone(s, seps);
      [s]
    case Some(i) =>
      CountSplit(s, seps, i);
      [s[..i]] + Split(s[i + 1..], seps)
  }

  lemma {:induction false} CountNone(s: string, seps: set<char>)
    requires NoneOf(s, seps)
    ensures CountIn(s, seps) == 0
  {
    if s != [] {
      CountNone(s[1..], seps);
    }
  }

  lemma {:induction false} CountSplit(s: string, seps: set<char>, i: nat)
    requires i < |s| && s[i] in seps && NoneOf(s[..i], seps)
    ensures CountIn(s, seps) == 1 + CountIn(s[i + 1..], seps)
  {
    if i > 0 {
      assert s[1..][..i - 1] == s[1..i];
      CountSplit(s[1..], seps, i - 1);
      assert s[1..][i..] == s[i + 1..];
    }
  }

  /** Python's `sep.join(parts)`. */
  function Join(parts: seq<string>, sep: string): string {
    if parts == [] then ""
    else if |parts| == 1 then parts[0]
    else parts[0] + sep + Join(parts[1..], sep)
  }

  /** Joining the pieces of a one-character split gives the string back. */
  lemma {:induction false} SplitJoin(s: string, c: char)
    decreases |s|
    ensures Join(Split(s, {c}), [c]) == s
  {
    var first := FirstOf(s, {c});
    if first.Some? {
      var i := first.value;
      SplitJoin(s[i + 1..], c);
      assert s == s[..i] + [c] + s[i + 1..];
    }
  }

  /** Python's `s.split(c, 1)` when `c in s`: the text before the first `c`
      and everything after it, which may contain further `c`s. */
  function SplitOnce(s: string, c: char): (r: Option<(string, string)>)
    ensures r.None? <==> c !in s
    ensures r.Some? ==> s == r.value.0 + [c] + r.value.1 && c !in r.value.0
  {
    match IndexOf(s, c)
    case None => None
    case Some(i) =>
      assert s == s[..i] + [c] + s[i + 1..];
      Some((s[..i], s[i + 1..]))
  }

  /** A position holding `c` with no `c` before it is the first one. */
  lemma IndexOfIs(s: string, c: char, k: nat)
    requires k < |s| && s[k] == c && c !in s[..k]
    ensures IndexOf(s, c) == Some(k)
  {
    assert c in s;
    var i := IndexOf(s, c).value;
    assert forall j :: 0 <= j < k ==> s[..k][j] == s[j];
    assert forall j :: 0 <= j < i ==> s[..i][j] == s[j];
  }

  /** A position holding a separator with none before it is the first one. */
  lemma FirstOfIs(s: string, seps: set<char>, k: nat)
    requires k < |s| && s[k] in seps && NoneOf(s[..k], seps)
    ensures FirstOf(s, seps) == Some(k)
  {
    assert !NoneOf(s, seps);
    var i := FirstOf(s, seps).value;
    assert forall j :: 0 <= j < k ==> s[..k][j] == s[j];
    assert forall j :: 0 <= j < i ==> s[..i][j] == s[j];
  }

  /** `c` cut out of `a + [c] + b` where `a` has no `c`: the first `c` is
      at `|a|`, so `split(c, 1)` gives back `a` and `b`. */
  lemma SplitOnceAt(a: string, c: char, b: string)
    requires c !in a
    ensures SplitOnce(a + [c] + b, c) == Some((a, b))
  {
    var s := a + [c] + b;
    assert s[..|a|] == a && s[|a| + 1..] == b;
    IndexOfIs(s, c, |a|);
  }

  /** The position of `c` put after a piece without separators is the first. */
  lemma FirstOfAt(a: string, seps: set<char>, c: char, b: string)
    requires NoneOf(a, seps) && c in seps
    ensures FirstOf(a + [c] + b, seps) == Some(|a|)
  {
    var s := a + [c] + b;
    assert s[..|a|] == a;
    FirstOfIs(s, seps, |a|);
  }

  /** Python's `s.partition(c)`: the text before the first `c`, whether there
      is one, and the text after it; `(s, False, '')` without a `c`. */
  function Partition(s: string, c: char): (r: (string, bool, string))
    ensures r.1 <==> c in s
    ensures r.1 ==> s == r.0 + [c] + r.2 && c !in r.0
    ensures !r.1 ==> r.0 == s && r.2 == ""
  {
    match SplitOnce(s, c)
    case None => (s, false, "")
    case Some(p) => (p.0, true, p.1)
  }

  /** The last position of `c` in `s` (Python's `s.rfind(c)`, absent for -1). */
  function LastIndexOf(s: string, c: char): (r: Option<nat>)
    decreases |s|
    ensures r.Some? ==> r.value < |s| && s[r.value] == c && c !in s[r.value + 1..]
    ensures r.None? <==> c !in s
  {
    if s == [] then None
    else if s[|s| - 1] == c then Some(|s| - 1)
    else match LastIndexOf(s[..|s| - 1], c)
      case None => None
      case Some(i) =>
        assert s[i + 1..] == s[..|s| - 1][i + 1..] + [s[|s| - 1]];
        Some(i)
  }

  /** Python's `s.rpartition(c)`: cut at the last `c`; `('', False, s)`
      without a `c`. */
  function RPartition(s: string, c: char): (r: (string, bool, string))
    ensures r.1 <==> c in s
    ensures r.1 ==> s == r.0 + [c] + r.2 && c !in r.2
    ensures !r.1 ==> r.0 == "" && r.2 == s
  {
    match LastIndexOf(s, c)
    case None => ("", false, s)
    case Some(i) =>
      assert s == s[..i] + [c] + s[i + 1..];
      (s[..i], true, s[i + 1..])
  }

  lemma PartitionAt(a: string, c: char, b: string)
    requires c !in a
    ensures Partition(a + [c] + b, c) == (a, true, b)
  {
    SplitOnceAt(a, c, b);
  }

  /** A position holding `c` with no `c` after it is the last one. */
  lemma LastIndexOfIs(s: string, c: char, k: nat)
    requires k < |s| && s[k] == c && c !in s[k + 1..]
    ensures LastIndexOf(s, c) == Some(k)
  {
    assert c in s;
    var i := LastIndexOf(s, c).value;
    assert forall j :: k < j < |s| ==> s[k + 1..][j - k - 1] == s[j];
    assert forall j :: i < j < |s| ==> s[i + 1..][j - i - 1] == s[j];
  }

  lemma RPartitionAt(a: string, c: char, b: string)
    requires c !in b
    ensures RPartition(a + [c] + b, c) == (a, true, b)
  {
    var s := a + [c] + b;
    assert s[..|a|] == a && s[|a| + 1..] == b;
    LastIndexOfIs(s, c, |a|);
  }

  /** Splitting a join of separator-free pieces gives the pieces back, for
      any class of separators the joining character belongs to. */
  lemma {:induction false} JoinSplit(parts: seq<string>, seps: set<char>, c: char)
    requires |parts| >= 1 && c in seps
    requires forall k :: 0 <= k < |parts| ==> NoneOf(parts[k], seps)
    ensures Split(Join(parts, [c]), seps) == parts
  {
    if |parts| > 1 {
      var rest := Join(parts[1..], [c]);
      assert parts[0] + [c] + rest == Join(parts, [c]);
      FirstOfAt(parts[0], seps, c, rest);
      assert (parts[0] + [c] + rest)[..|parts[0]|] == parts[0];
      assert (parts[0] + [c] + rest)[|parts[0]| + 1..] == rest;
      JoinSplit(parts[1..], seps, c);
      assert parts == [parts[0]] + parts[1..];
    }
  }

  // ---------------------------------------------------------------- numbers

  predicate IsDigit(c: char) { '0' <= c <= '9' }

  predicate AllDigits(s: string) {
    forall i :: 0 <= i < |s| ==> IsDigit(s[i])
  }

  function DigitChar(d: nat): (c: char)
    requires d < 10
    ensures IsDigit(c) && c as int - '0' as int == d
  {
    ('0' as int + d) as char
  }

  /** The number a run of decimal digits denotes (leading zeros allowed). */
  function DigitsValue(s: string): nat
    requires AllDigits(s)
    decreases |s|
  {
    if s == [] then 0
    else DigitsValue(s[..|s| - 1]) * 10 + (s[|s| - 1] as int - '0' as int)
  }

  /** Python's `str(n)` for a non-negative integer. */
  function NatToString(n: nat): (r: string)
    ensures |r| >= 1 && AllDigits(r)
    ensures |r| > 1 ==> r[0] != '0'
  {
    if n < 10 then [DigitChar(n)] else NatToString(n / 10) + [DigitChar(n % 10)]
  }

  /** Reading back the decimal text of `n` gives `n`. */
  lemma {:induction false} NatToStringValue(n: nat)
    ensures DigitsValue(NatToString(n)) == n
  {
    if n >= 10 {
      NatToStringValue(n / 10);
      var s := NatToString(n);
      assert s[..|s| - 1] == NatToString(n / 10);
    }
  }

  /** Python's `str(n)` for any integer. */
  function IntToString(n: int): string {
    if n < 0 then "-" + NatToString(-n) else NatToString(n)
  }

  /** Python's `int(s)` for a base-ten string: surrounding whitespace is
      ignored, one optional sign, then at least one digit; anything else
      raises `ValueError` (here: `None`). */
  function ParseInt(s: string): (r: Option<int>)
    ensures var t := Strip(s);
            && (r.Some? <==> (t != [] && AllDigits(t)) || (|t| > 1 && (t[0] == '+' || t[0] == '-') && AllDigits(t[1..])))
            && (r.Some? ==> t != [] && AllDigits(t[1..]) && (IsDigit(t[0]) || t[0] == '-' || t[0] == '+'))
            && (r.Some? && r.value < 0 ==> t[0] == '-')
            && (r.Some? && IsDigit(t[0]) ==> r.value == DigitsValue(t))
            && (r.Some? && !IsDigit(t[0]) ==>
                  r.value == (if t[0] == '-' then -(DigitsValue(t[1..]) as int) else DigitsValue(t[1..])))
  {
    ParseSigned(Strip(s))
  }

  /** `int()` on text that is already stripped. */
  function ParseSigned(t: string): (r: Option<int>)
    ensures r.Some? ==> t != [] && AllDigits(t[1..]) && (IsDigit(t[0]) || t[0] == '-' || t[0] == '+')
    ensures r.Some? && r.value < 0 ==> t[0] == '-'
    ensures r.Some? && IsDigit(t[0]) ==> r.value == DigitsValue(t)
    ensures r.Some? <==> (t != [] && AllDigits(t)) || (|t| > 1 && (t[0] == '+' || t[0] == '-') && AllDigits(t[1..]))
    ensures r.Some? && !IsDigit(t[0]) ==>
              r.value == (if t[0] == '-' then -(DigitsValue(t[1..]) as int) else DigitsValue(t[1..]))
  {
    if t != [] && (t[0] == '-' || t[0] == '+') then
      if |t| > 1 && AllDigits(t[1..]) then
        var v: int := DigitsValue(t[1..]);
        Some(if t[0] == '-' then -v else v)
      else None
    else if t != [] && AllDigits(t) then
      assert t[0..] == t;
      Some(DigitsValue(t))
    else None
  }

  /** `int(str(n)) == n`. */
  lemma ParseIntRoundTrip(n: int)
    ensures ParseInt(IntToString(n)) == Some(n)
  {
    var digits := NatToString(if n < 0 then -n else n);
    NatToStringValue(if n < 0 then -n else n);
    if n < 0 {
      ParseNegative(digits);
    } else {
      ParseDigits(digits);
    }
  }

  /** Decimal digits read as their value. */
  lemma ParseDigits(t: string)
    requires t != [] && AllDigits(t)
    ensures ParseInt(t) == Some(DigitsValue(t))
  {
    assert IsStripped(t);
    StripStripped(t);
  }

  /** `-` and decimal digits read as the negated value. */
  lemma ParseNegative(t: string)
    requires t != [] && AllDigits(t)
    ensures ParseInt("-" + t) == Some(-(DigitsValue(t) as int))
  {
    var s := "-" + t;
    assert s[0] == '-' && s[1..] == t && s[|s| - 1] == t[|t| - 1];
    assert IsStripped(s);
    StripStripped(s);
  }

  // ---------------------------------------------------------------- ordering

  /** Python's `a < b` on strings: lexicographic by code point. */
  predicate Below(a: string, b: string)
    decreases |a|
  {
    if a == [] then b != []
    else b != [] && (a[0] < b[0] || (a[0] == b[0] && Below(a[1..], b[1..])))
  }

  // ---------------------------------------------------------------- sequences

  /** The whole slice of a sequence is the sequence. */
  lemma AllOf<T>(s: seq<T>)
    ensures s[..|s|] == s
  {
  }

  /** Appending keeps what was there and puts the new element last. */
  lemma Extend<T>(s: seq<T>, x: T)
    ensures forall k :: 0 <= k < |s| ==> (s + [x])[k] == s[k]
    ensures (s + [x])[|s|] == x
  {
  }

  /** Concatenation is associative. */
  lemma Associative<T>(x: seq<T>, y: seq<T>, z: seq<T>)
    ensures x + y + z == x + (y + z)
  {
  }

  /** A non-empty sequence is its front followed by its last element. */
  lemma LastSplit<T>(s: seq<T>)
    requires s != []
    ensures s == s[..|s| - 1] + [s[|s| - 1]]
  {
  }

  /** Slicing a prefix of `s` is slicing `s`. */
  lemma PrefixSlices<T>(s: seq<T>, i: nat, j: nat)
    requires i <= j <= |s|
    ensures s[..j][..i] == s[..i] && s[..j][i..] == s[i..j]
  {
  }
}
