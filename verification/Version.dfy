/** Home Assistant's version text and the choice it decides
    (pkg/haaddon/version.go). */
module Version {
  import opened Numerals
  import opened Strings

  datatype HAVersion = HAVersion(year: nat, month: nat)

  datatype ConfigMode = Yaml | Store

  /** The largest int of the platform. */
  const MAX_INT: nat := 0x7FFF_FFFF_FFFF_FFFF

  const STORE_CONFIG_VERSION: HAVersion := HAVersion(2026, 8)

  /** HAVersion.String. */
  function Printed(v: HAVersion): string {
    Print(v.year, 10) + "." + Print(v.month, 10)
  }

  predicate AtLeast(v: HAVersion, other: HAVersion) {
    if v.year != other.year then v.year > other.year else v.month >= other.month
  }

  function Mode(v: HAVersion): ConfigMode {
    if AtLeast(v, STORE_CONFIG_VERSION) then Store else Yaml
  }

  function Leading(s: string): Option<nat> {
    LeadingDigitsAreDigits(s, 10);
    var end := LeadingDigits(s, 10);
    if end == 0 || Value(s[..end], 10) > MAX_INT then None else Some(Value(s[..end], 10))
  }

  function Parsed(value: string): Option<HAVersion> {
    var parts := SplitN(TrimSpace(value), '.', 3);
    if |parts| < 2 then None
    else
      var year, month := Leading(parts[0]), Leading(parts[1]);
      if year.None? || month.None? then None else Some(HAVersion(year.value, month.value))
  }

  /** leadingInt. */
  method LeadingInt(s: string) returns (r: Option<nat>)
    ensures r == Leading(s)
  {
    LeadingDigitsAreDigits(s, 10);
    var end := 0;
    while end < |s| && '0' <= s[end] <= '9'
      invariant end <= |s| && AllDigits(s[..end], 10)
    {
      assert s[..end + 1] == s[..end] + [s[end]];
      end := end + 1;
    }
    assert s == s[..end] + s[end..];
    LeadingDigitsOf(s[..end], s[end..], 10);
    if end == 0 { return None; }
    var n := Value(s[..end], 10);
    return if n > MAX_INT then None else Some(n);
  }

  /** parseHAVersion. */
  method ParseHAVersion(value: string) returns (r: Option<HAVersion>)
    ensures r == Parsed(value)
  {
    var parts := SplitN(TrimSpace(value), '.', 3);
    if |parts| < 2 { return None; }
    var year := LeadingInt(parts[0]);
    if year.None? { return None; }
    var month := LeadingInt(parts[1]);
    if month.None? { return None; }
    return Some(HAVersion(year.value, month.value));
  }

  predicate InRange(v: HAVersion) { v.year <= MAX_INT && v.month <= MAX_INT }

  /** What may follow a version: nothing, or something that continues no number. */
  predicate EndsNumber(suffix: string) {
    suffix == "" || !('0' <= suffix[0] <= '9')
  }

  lemma LeadingOfPrint(n: nat, rest: string)
    requires n <= MAX_INT && EndsNumber(rest)
    ensures Leading(Print(n, 10) + rest) == Some(n)
  {
    ValueOfPrint(n, 10);
    LeadingDigitsOf(Print(n, 10), rest, 10);
    assert (Print(n, 10) + rest)[..|Print(n, 10)|] == Print(n, 10);
  }

  /** The number a part starts with: the part is refused if it starts with no digit, or
      with more than the platform's largest int. */
  lemma LeadingExactly(digits: string, rest: string)
    requires AllDigits(digits, 10) && EndsNumber(rest)
    ensures Leading(digits + rest)
         == if digits == "" || Value(digits, 10) > 0x7FFF_FFFF_FFFF_FFFF then None else Some(Value(digits, 10))
  {
    LeadingDigitsOf(digits, rest, 10);
    assert (digits + rest)[..|digits|] == digits;
  }

  /** A version needs a dot. */
  lemma NoDotNoVersion(value: string)
    requires '.' !in value
    ensures Parsed(value).None?
  {
    hide IsSpace;
    var left, right := TrimSpaceCuts(value);
    var t := TrimSpace(value);
    forall c | c in t ensures c in value {
      var i :| 0 <= i < |t| && t[i] == c;
      assert value[|left| + i] == c;
    }
    assert IndexOf(t, '.') == |t|;
  }

  /** What parses: a number, a dot and a number, each possibly with more behind it, up to
      the next dot. */
  lemma ParsedExactly(head: string, rest: string)
    requires '.' !in head && TrimSpace(head + "." + rest) == head + "." + rest
    ensures var year, month := Leading(head), Leading(rest[..IndexOf(rest, '.')]);
            Parsed(head + "." + rest)
              == if year.None? || month.None? then None else Some(HAVersion(year.value, month.value))
  {
    hide Leading;
    hide TrimSpace;
    FirstPart(head, rest, 3);
    HeadOfPart("", rest, 1);
    assert "" + rest == rest && "" + rest[..IndexOf(rest, '.')] == rest[..IndexOf(rest, '.')];
  }

  lemma PrintedEnds(v: HAVersion)
    ensures var p := Printed(v);
            p != "" && !IsSpace(p[0]) && !IsSpace(p[|p| - 1]) && '.' !in Print(v.year, 10) && '.' !in Print(v.month, 10)
  {
    hide Print;
    ValueOfPrint(v.year, 10);
    ValueOfPrint(v.month, 10);
    var y, m := Print(v.year, 10), Print(v.month, 10);
    assert Printed(v)[0] == y[0] && Printed(v)[|Printed(v)| - 1] == m[|m| - 1];
  }

  lemma FirstPart(head: string, rest: string, n: nat)
    requires '.' !in head && n > 1
    ensures SplitN(head + "." + rest, '.', n) == [head] + SplitN(rest, '.', n - 1)
  {
    var s := head + "." + rest;
    assert s == head + ['.'] + rest;
    IndexOfFirst(head, '.', rest);
    assert s[..|head|] == head && s[|head| + 1..] == rest;
  }

  lemma HeadOfPart(head: string, rest: string, n: nat)
    requires '.' !in head && n > 0
    ensures SplitN(head + rest, '.', n + 1)[0] == head + rest[..IndexOf(rest, '.')]
  {
    IndexOfSkips(head, rest, '.');
    var k := IndexOf(rest, '.');
    assert (head + rest)[..|head| + k] == head + rest[..k];
    assert rest[..|rest|] == rest;
  }

  /** The parts of a printed version and whatever follows it. */
  lemma PartsOfPrint(year: string, month: string, suffix: string)
    requires '.' !in year && '.' !in month
    ensures var parts := SplitN(year + "." + month + suffix, '.', 3);
            |parts| >= 2 && parts[0] == year && parts[1] == month + suffix[..IndexOf(suffix, '.')]
  {
    hide SplitN;
    FirstPart(year, month + suffix, 3);
    HeadOfPart(month, suffix, 1);
    assert year + "." + month + suffix == year + "." + (month + suffix);
  }

  /** Parsing a printed version gives it back, whatever follows that continues no
      number: a patch, a pre-release, a line break. */
  lemma ParseOfPrint(v: HAVersion, suffix: string)
    requires InRange(v) && EndsNumber(suffix)
    ensures Parsed(Printed(v) + suffix) == Some(v)
  {
    hide Print;
    PrintedEnds(v);
    var k := TrimmedTail(Printed(v), suffix);
    var y, m := Print(v.year, 10), Print(v.month, 10);
    PartsOfPrint(y, m, suffix[..k]);
    var tail := suffix[..k][..IndexOf(suffix[..k], '.')];
    LeadingOfPrint(v.year, "");
    assert y + "" == y;
    LeadingOfPrint(v.month, tail);
  }

  /** What was parsed, printed, parses to itself. */
  lemma ParsedIsNormal(value: string)
    requires Parsed(value).Some?
    ensures Parsed(Printed(Parsed(value).value)) == Parsed(value)
  {
    var v := Parsed(value).value;
    assert InRange(v);
    ParseOfPrint(v, "");
    assert Printed(v) + "" == Printed(v);
  }

  /** Versions in order: total, and equal only to themselves. */
  lemma AtLeastIsTotal(u: HAVersion, v: HAVersion, w: HAVersion)
    ensures AtLeast(u, v) || AtLeast(v, u)
    ensures AtLeast(u, v) && AtLeast(v, u) <==> u == v
    ensures AtLeast(u, v) && AtLeast(v, w) ==> AtLeast(u, w)
  {
  }

  /** The text of any release from 2026.8 on selects the store, and the text of no
      earlier release does; so a later release never falls back to the YAML file. */
  lemma ModeOfRelease(u: HAVersion, v: HAVersion, suffixU: string, suffixV: string)
    requires InRange(u) && InRange(v) && EndsNumber(suffixU) && EndsNumber(suffixV) && AtLeast(v, u)
    ensures Parsed(Printed(u) + suffixU).Some? && Parsed(Printed(v) + suffixV).Some?
    ensures Mode(Parsed(Printed(u) + suffixU).value) == Store <==> u.year > 2026 || (u.year == 2026 && u.month >= 8)
    ensures Mode(Parsed(Printed(u) + suffixU).value) == Store ==> Mode(Parsed(Printed(v) + suffixV).value) == Store
  {
    ParseOfPrint(u, suffixU);
    ParseOfPrint(v, suffixV);
  }
}
