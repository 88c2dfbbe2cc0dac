/** IP addresses as text: the dotted IPv4 form, and the IPv6 form of section 2.2
    of RFC 4291 printed as section 4 of RFC 5952 asks.

    An address is a number below 2^128, the way Go keeps it: an IPv4 address is
    its number in the block ::ffff:0:0/96, which is what net.IP.To4 undoes when
    the address is printed. */
module Addresses {
  import opened Numerals
  import opened Strings

  const ADDRESSES: nat := 0x1_0000_0000_0000_0000_0000_0000_0000_0000
  const MAPPED: nat := 0xffff_0000_0000
  const V4_ADDRESSES: nat := 0x1_0000_0000

  // ---------------------------------------------------------------- numbers

  predicate IsRadix(b: nat) { b == 256 || b == 65536 }

  // Division and multiplication by a known radix, which keeps proofs linear.
  function High(v: nat, b: nat): nat { if b == 256 then v / 256 else v / 65536 }
  function Low(v: nat, b: nat): nat { if b == 256 then v % 256 else v % 65536 }
  function Raised(v: nat, b: nat): nat { if b == 256 then v * 256 else v * 65536 }

  /** The k digits of v in base b, most significant first. */
  function Limbs(v: nat, k: nat, b: nat): (g: seq<nat>)
    requires IsRadix(b)
    ensures |g| == k
    ensures forall i :: 0 <= i < k ==> g[i] < b
  {
    if k == 0 then [] else Limbs(High(v, b), k - 1, b) + [Low(v, b)]
  }

  function LimbsValue(g: seq<nat>, b: nat): nat {
    if g == [] then 0 else Raised(LimbsValue(g[..|g| - 1], b), b) + g[|g| - 1]
  }

  function Pow(b: nat, k: nat): nat { if k == 0 then 1 else Raised(Pow(b, k - 1), b) }

  lemma PowKnown()
    ensures Pow(256, 4) == V4_ADDRESSES && Pow(65536, 8) == ADDRESSES
  {
    assert Pow(256, 2) == 65536;
    assert Pow(65536, 2) == V4_ADDRESSES;
    assert Pow(65536, 4) == V4_ADDRESSES * V4_ADDRESSES;
    assert Pow(65536, 6) == V4_ADDRESSES * V4_ADDRESSES * V4_ADDRESSES;
  }

  lemma Digit(q: nat, r: nat, bound: nat, b: nat)
    requires IsRadix(b) && r < b
    ensures High(Raised(q, b) + r, b) == q && Low(Raised(q, b) + r, b) == r
    ensures q < bound ==> Raised(q, b) + r < Raised(bound, b)
  {
  }

  lemma {:induction false} LimbsOfValue(g: seq<nat>, b: nat)
    requires IsRadix(b)
    requires forall i :: 0 <= i < |g| ==> g[i] < b
    ensures Limbs(LimbsValue(g, b), |g|, b) == g
    ensures LimbsValue(g, b) < Pow(b, |g|)
  {
    hide High;
    hide Low;
    hide Raised;
    if g != [] {
      var init, last := g[..|g| - 1], g[|g| - 1];
      LimbsOfValue(init, b);
      Digit(LimbsValue(init, b), last, Pow(b, |init|), b);
      assert init + [last] == g;
    }
  }

  lemma {:induction false} ValueOfLimbs(v: nat, k: nat, b: nat)
    requires IsRadix(b) && v < Pow(b, k)
    ensures LimbsValue(Limbs(v, k, b), b) == v
  {
    if k > 0 {
      ValueOfLimbs(High(v, b), k - 1, b);
      var g := Limbs(v, k, b);
      assert g[..k - 1] == Limbs(High(v, b), k - 1, b);
    }
  }

  // ------------------------------------------------------------------- IPv4

  /** One octet as Go accepts it: no sign, no superfluous zeros, at most 255. */
  predicate IsOctet(p: string) {
    AllDigits(p, 10) && Canonical(p) && Value(p, 10) < 256
  }

  function ParseV4(s: string): Option<nat> {
    var parts := Split(s, '.');
    if |parts| == 4 && (forall i :: 0 <= i < 4 ==> IsOctet(parts[i])) then
      Some(LimbsValue(seq(4, i requires 0 <= i < 4 => Value(parts[i], 10)), 256))
    else None
  }

  function OctetTexts(a: nat): seq<string> {
    var octets := Limbs(a, 4, 256);
    seq(4, i requires 0 <= i < 4 => Print(octets[i], 10))
  }

  function PrintV4(a: nat): string {
    Join(OctetTexts(a), '.')
  }

  lemma OctetText(d: nat)
    requires d < 256
    ensures IsOctet(Print(d, 10)) && Value(Print(d, 10), 10) == d
    ensures forall c :: c in Print(d, 10) ==> IsDigit(c, 10)
  {
    ValueOfPrint(d, 10);
  }

  lemma ParseOfPrintV4(a: nat)
    requires a < V4_ADDRESSES
    ensures ParseV4(PrintV4(a)) == Some(a)
    ensures forall c :: c in PrintV4(a) ==> IsDigit(c, 10) || c == '.'
  {
    var octets, parts := Limbs(a, 4, 256), OctetTexts(a);
    forall i | 0 <= i < 4
      ensures IsOctet(parts[i]) && '.' !in parts[i] && Value(parts[i], 10) == octets[i]
      ensures forall c :: c in parts[i] ==> IsDigit(c, 10)
    {
      OctetText(octets[i]);
    }
    SplitOfJoin(parts, '.');
    assert seq(4, i requires 0 <= i < 4 => Value(parts[i], 10)) == octets;
    PowKnown();
    ValueOfLimbs(a, 4, 256);
    JoinChars(parts, '.');
  }

  lemma {:induction false} JoinChars(parts: seq<string>, c: char)
    ensures forall x :: x in Join(parts, c) ==> x == c || exists i :: 0 <= i < |parts| && x in parts[i]
  {
    if |parts| > 1 {
      JoinChars(parts[1..], c);
      forall x | x in Join(parts, c) && x != c ensures exists i :: 0 <= i < |parts| && x in parts[i] {
        if x !in parts[0] {
          var i :| 0 <= i < |parts| - 1 && x in parts[1..][i];
          assert x in parts[i + 1];
        }
      }
    }
  }

  /** Dotted text is canonical already: only one spelling reads as an address. */
  lemma PrintOfParseV4(s: string)
    requires ParseV4(s).Some?
    ensures ParseV4(s).value < V4_ADDRESSES && PrintV4(ParseV4(s).value) == s
  {
    var parts := Split(s, '.');
    var octets := seq(4, i requires 0 <= i < 4 => Value(parts[i], 10));
    LimbsOfValue(octets, 256);
    PowKnown();
    forall i | 0 <= i < 4 ensures Print(octets[i], 10) == parts[i] {
      PrintOfValue(parts[i]);
    }
    assert OctetTexts(ParseV4(s).value) == parts;
    JoinOfSplit(s, '.');
  }

  lemma JoinOfFour(a: string, b: string, c: string, d: string)
    ensures Join([a, b, c, d], '.') == a + "." + b + "." + c + "." + d
  {
    assert [a, b, c, d][1..] == [b, c, d] && [b, c, d][1..] == [c, d] && [c, d][1..] == [d];
    assert Join([c, d], '.') == c + "." + d;
    assert Join([b, c, d], '.') == b + "." + (c + "." + d);
    assert Join([a, b, c, d], '.') == a + "." + (b + "." + (c + "." + d));
  }

  lemma OneOctetMore(q: nat, d: nat, k: nat)
    requires d < 256
    ensures Limbs(q * 256 + d, k + 1, 256) == Limbs(q, k, 256) + [d]
  {
  }

  /** The first octet is the most significant one. */
  lemma FourOctets(w: nat, x: nat, y: nat, z: nat)
    requires w < 256 && x < 256 && y < 256 && z < 256
    ensures Limbs(((w * 256 + x) * 256 + y) * 256 + z, 4, 256) == [w, x, y, z]
  {
    hide Limbs;
    NoOctets();
    OneOctetMore(0, w, 0);
    OneOctetMore(w, x, 1);
    OneOctetMore(w * 256 + x, y, 2);
    OneOctetMore((w * 256 + x) * 256 + y, z, 3);
  }

  lemma NoOctets()
    ensures Limbs(0, 0, 256) == []
  {
  }

  /** An address with these octets is printed as them, separated by dots. */
  lemma DottedText(a: nat, w: nat, x: nat, y: nat, z: nat)
    requires Limbs(a, 4, 256) == [w, x, y, z]
    ensures PrintV4(a) == Print(w, 10) + "." + Print(x, 10) + "." + Print(y, 10) + "." + Print(z, 10)
  {
    hide Limbs;
    hide Print;
    hide Join;
    assert OctetTexts(a) == [Print(w, 10), Print(x, 10), Print(y, 10), Print(z, 10)];
    JoinOfFour(Print(w, 10), Print(x, 10), Print(y, 10), Print(z, 10));
  }

  // ------------------------------------------------------------------- IPv6

  const GROUPS: nat := 8

  function HexTexts(g: seq<nat>): seq<string> {
    seq(|g|, i requires 0 <= i < |g| => Print(g[i], 16))
  }

  /** The groups in hexadecimal, separated by colons. */
  function Colons(g: seq<nat>): string { Join(HexTexts(g), ':') }

  /** One past the zero groups that start at i. */
  function ZerosEnd(g: seq<nat>, i: nat): (j: nat)
    requires i <= |g|
    ensures i <= j <= |g|
    ensures forall k :: i <= k < j ==> g[k] == 0
    decreases |g| - i
  {
    if i < |g| && g[i] == 0 then ZerosEnd(g, i + 1) else i
  }

  /** The run of zero groups to write as "::": the first longest of two or more,
      or an empty run when there is none. */
  function ZeroRun(g: seq<nat>, i: nat, from: nat, to: nat): (run: (nat, nat))
    requires i <= |g| && from <= to <= |g|
    requires from == to || from + 2 <= to
    requires forall k :: from <= k < to ==> g[k] == 0
    ensures run.0 <= run.1 <= |g| && (run.0 == run.1 || run.0 + 2 <= run.1)
    ensures forall k :: run.0 <= k < run.1 ==> g[k] == 0
    decreases |g| - i
  {
    if i == |g| then (from, to)
    else
      var j := ZerosEnd(g, i);
      if j - i >= 2 && j - i > to - from then ZeroRun(g, i + 1, i, j)
      else ZeroRun(g, i + 1, from, to)
  }

  /** The groups from i to j are zero. */
  predicate IsZeroRun(g: seq<nat>, i: nat, j: nat) {
    i <= j <= |g| && forall k :: i <= k < j ==> g[k] == 0
  }

  lemma {:induction false} ZerosEndIsFarthest(g: seq<nat>, i: nat, j: nat)
    requires IsZeroRun(g, i, j)
    ensures j <= ZerosEnd(g, i)
    decreases |g| - i
  {
    if i < j { ZerosEndIsFarthest(g, i + 1, j); }
  }

  /** No run of zeros from i on is longer than the one chosen, and of those as long as
      it the one chosen comes first. */
  lemma {:induction false} ZeroRunIsLongest(g: seq<nat>, i: nat, from: nat, to: nat)
    requires i <= |g| && (from == to || from + 2 <= to) && IsZeroRun(g, from, to)
    ensures var run := ZeroRun(g, i, from, to);
            && run.1 - run.0 >= to - from
            && (run == (from, to) || (run.0 >= i && run.1 - run.0 > to - from))
            && forall a: nat, b: nat :: i <= a && a + 2 <= b && IsZeroRun(g, a, b) ==>
                 b - a <= run.1 - run.0 && (a < run.0 && run.0 >= i && run != (from, to) ==> b - a < run.1 - run.0)
    decreases |g| - i
  {
    if i < |g| {
      var j := ZerosEnd(g, i);
      var run := ZeroRun(g, i, from, to);
      if j - i >= 2 && j - i > to - from {
        ZeroRunIsLongest(g, i + 1, i, j);
      } else {
        ZeroRunIsLongest(g, i + 1, from, to);
      }
      forall a: nat, b: nat | i <= a && a + 2 <= b && IsZeroRun(g, a, b)
        ensures b - a <= run.1 - run.0
        ensures a < run.0 && run.0 >= i && run != (from, to) ==> b - a < run.1 - run.0
      {
        if a == i { ZerosEndIsFarthest(g, i, b); }
      }
    }
  }

  function PrintGroups(g: seq<nat>): string
    requires |g| == GROUPS
  {
    var (from, to) := ZeroRun(g, 0, 0, 0);
    if from == to then Colons(g) else Colons(g[..from]) + "::" + Colons(g[to..])
  }

  /** One to four hexadecimal digits. */
  predicate IsGroup(p: string) {
    1 <= |p| <= 4 && AllDigits(p, 16)
  }

  /** The groups the parts spell; the last part may be a dotted IPv4 address. */
  function GroupsOf(parts: seq<string>, dotted: bool): Option<seq<nat>> {
    if parts == [] then Some([])
    else if |parts| == 1 && dotted && '.' in parts[0] then
      match ParseV4(parts[0])
      case None => None
      case Some(a) => Some([a / 65536, a % 65536])
    else if !IsGroup(parts[0]) then None
    else
      match GroupsOf(parts[1..], dotted)
      case None => None
      case Some(rest) => Some([Value(parts[0], 16)] + rest)
  }

  function ParseList(s: string, dotted: bool): Option<seq<nat>> {
    if s == "" then Some([]) else GroupsOf(Split(s, ':'), dotted)
  }

  /** The index of the first "::", or |s| when there is none. */
  function IndexOfGap(s: string): (i: nat)
    ensures i <= |s|
    ensures i < |s| ==> i + 2 <= |s|
  {
    if |s| < 2 then |s|
    else if s[0] == ':' && s[1] == ':' then 0
    else 1 + IndexOfGap(s[1..])
  }

  function Zeros(n: nat): seq<nat> { seq(n, _ => 0) }

  /** Eight groups, or fewer around a "::" that stands for at least one. */
  function ParseGroups(s: string): Option<seq<nat>> {
    var i := IndexOfGap(s);
    if i == |s| then
      match ParseList(s, true)
      case None => None
      case Some(g) => if |g| == GROUPS then Some(g) else None
    else
      match (ParseList(s[..i], false), ParseList(s[i + 2..], true))
      case (Some(before), Some(after)) =>
        if |before| + |after| < GROUPS then
          Some(before + Zeros(GROUPS - |before| - |after|) + after)
        else None
      case _ => None
  }

  predicate AreGroups(g: seq<nat>) { forall i :: 0 <= i < |g| ==> g[i] < 65536 }

  lemma PrintLength(d: nat, k: nat)
    requires (k == 1 && d < 16) || (k == 2 && d < 256) || (k == 3 && d < 4096) || (k == 4 && d < 65536)
    ensures 1 <= |Print(d, 16)| <= k
    decreases k
  {
    if d >= 16 { PrintLength(d / 16, k - 1); }
  }

  lemma GroupText(d: nat)
    requires d < 65536
    ensures IsGroup(Print(d, 16)) && Value(Print(d, 16), 16) == d
    ensures ':' !in Print(d, 16) && '.' !in Print(d, 16)
  {
    ValueOfPrint(d, 16);
    PrintLength(d, 4);
  }

  lemma {:induction false} GroupsOfTexts(g: seq<nat>, texts: seq<string>, dotted: bool)
    requires AreGroups(g) && texts == HexTexts(g)
    ensures GroupsOf(texts, dotted) == Some(g)
  {
    if g != [] {
      GroupText(g[0]);
      assert texts[1..] == HexTexts(g[1..]);
      GroupsOfTexts(g[1..], texts[1..], dotted);
      assert [g[0]] + g[1..] == g;
    }
  }

  lemma ParseListOfColons(g: seq<nat>, dotted: bool)
    requires AreGroups(g)
    ensures ParseList(Colons(g), dotted) == Some(g)
  {
    var texts := HexTexts(g);
    if g != [] {
      forall i | 0 <= i < |g| ensures ':' !in texts[i] && texts[i] != "" { GroupText(g[i]); }
      SplitOfJoin(texts, ':');
      NoGapInJoin(texts);
      GroupsOfTexts(g, texts, dotted);
    }
  }

  predicate NoDoubleColon(s: string) {
    forall i :: 0 <= i < |s| - 1 ==> s[i] != ':' || s[i + 1] != ':'
  }

  /** Joined parts have no "::" inside and no ":" at either end. */
  lemma {:induction false} NoGapInJoin(parts: seq<string>)
    requires |parts| > 0
    requires forall i :: 0 <= i < |parts| ==> parts[i] != "" && ':' !in parts[i]
    ensures var s := Join(parts, ':'); s != "" && s[0] != ':' && s[|s| - 1] != ':'
    ensures NoDoubleColon(Join(parts, ':'))
  {
    if |parts| > 1 {
      NoGapInJoin(parts[1..]);
      var head, rest := parts[0], Join(parts[1..], ':');
      var s := Join(parts, ':');
      assert s == head + [':'] + rest;
      forall i | 0 <= i < |s| - 1 ensures s[i] != ':' || s[i + 1] != ':' {
        if i > |head| {
          assert s[i] == rest[i - |head| - 1] && s[i + 1] == rest[i - |head|];
        } else if i < |head| {
          assert s[i] == head[i];
        }
      }
    }
  }

  lemma {:induction false} GapAfter(x: string, y: string)
    requires x == "" || x[|x| - 1] != ':'
    requires NoDoubleColon(x)
    ensures IndexOfGap(x + "::" + y) == |x|
  {
    if x != "" {
      assert (x + "::" + y)[1..] == x[1..] + "::" + y;
      GapAfter(x[1..], y);
    }
  }

  lemma {:induction false} NoGap(x: string)
    requires NoDoubleColon(x)
    ensures IndexOfGap(x) == |x|
  {
    if x != "" { NoGap(x[1..]); }
  }

  lemma ColonsHaveNoGap(g: seq<nat>)
    requires AreGroups(g)
    ensures var s := Colons(g); g != [] ==> s != "" && s[|s| - 1] != ':'
    ensures g == [] ==> Colons(g) == ""
    ensures NoDoubleColon(Colons(g))
  {
    if g != [] {
      var texts := HexTexts(g);
      forall i | 0 <= i < |g| ensures ':' !in texts[i] && texts[i] != "" { GroupText(g[i]); }
      NoGapInJoin(texts);
    }
  }

  lemma ParseAroundGap(before: seq<nat>, after: seq<nat>, s: string)
    requires AreGroups(before) && AreGroups(after) && |before| + |after| < GROUPS
    requires s == Colons(before) + "::" + Colons(after)
    ensures ParseGroups(s) == Some(before + Zeros(GROUPS - |before| - |after|) + after)
  {
    assert IndexOfGap(s) == |Colons(before)| by {
      ColonsHaveNoGap(before);
      GapAfter(Colons(before), Colons(after));
    }
    assert s[..|Colons(before)|] == Colons(before) && s[|Colons(before)| + 2..] == Colons(after);
    ParseListOfColons(before, false);
    ParseListOfColons(after, true);
  }

  /** "::" stands for at least one group: beside eight groups it is refused. */
  lemma GapStandsForSomething(before: seq<nat>, after: seq<nat>)
    requires AreGroups(before) && AreGroups(after)
    ensures ParseGroups(Colons(before) + "::" + Colons(after)).Some? <==> |before| + |after| < 8
  {
    var s := Colons(before) + "::" + Colons(after);
    if |before| + |after| < 8 {
      ParseAroundGap(before, after, s);
    } else {
      assert IndexOfGap(s) == |Colons(before)| by {
        ColonsHaveNoGap(before);
        GapAfter(Colons(before), Colons(after));
      }
      assert s[..|Colons(before)|] == Colons(before) && s[|Colons(before)| + 2..] == Colons(after);
      ParseListOfColons(before, false);
      ParseListOfColons(after, true);
    }
  }

  /** Without "::" exactly eight groups are an address. */
  lemma EightGroups(g: seq<nat>)
    requires AreGroups(g)
    ensures ParseGroups(Colons(g)).Some? <==> |g| == 8
  {
    hide Colons;
    ColonsHaveNoGap(g);
    NoGap(Colons(g));
    ParseListOfColons(g, true);
  }

  lemma ParseWithoutGap(g: seq<nat>, s: string)
    requires |g| == GROUPS && AreGroups(g) && s == Colons(g)
    ensures ParseGroups(s) == Some(g)
  {
    ColonsHaveNoGap(g);
    NoGap(s);
    ParseListOfColons(g, true);
  }

  lemma PrintedGroups(g: seq<nat>)
    requires |g| == GROUPS
    ensures var (from, to) := ZeroRun(g, 0, 0, 0);
            PrintGroups(g) == if from == to then Colons(g) else Colons(g[..from]) + "::" + Colons(g[to..])
  {
    hide ZeroRun;
    hide Colons;
  }

  /** "::" stands for the first of the longest runs of two or more zero groups, and where
      there is no such run all eight groups are written. */
  lemma GapStandsForLongestRun(g: seq<nat>, from: nat, to: nat)
    requires |g| == GROUPS && IsZeroRun(g, from, to)
    requires forall a: nat, b: nat :: a + 2 <= b && IsZeroRun(g, a, b) ==>
               b - a <= to - from && (a < from ==> b - a < to - from)
    ensures from + 2 <= to ==> PrintGroups(g) == Colons(g[..from]) + "::" + Colons(g[to..])
    ensures from == to ==> PrintGroups(g) == Colons(g)
  {
    hide ZeroRun;
    hide Colons;
    ZeroRunIsLongest(g, 0, 0, 0);
    PrintedGroups(g);
    var run := ZeroRun(g, 0, 0, 0);
    if from + 2 <= to { assert IsZeroRun(g, from, to); }
    if run.0 + 2 <= run.1 { assert IsZeroRun(g, run.0, run.1); }
  }

  lemma GapIsZeros(g: seq<nat>, from: nat, to: nat)
    requires from <= to <= |g| && forall k :: from <= k < to ==> g[k] == 0
    ensures g == g[..from] + Zeros(to - from) + g[to..]
  {
  }

  /** Reading back the text of eight groups gives the same eight groups. */
  lemma ParseOfPrintGroups(g: seq<nat>)
    requires |g| == GROUPS && AreGroups(g)
    ensures ParseGroups(PrintGroups(g)) == Some(g)
  {
    hide ZeroRun;
    hide Colons;
    hide PrintGroups;
    hide ParseGroups;
    var (from, to) := ZeroRun(g, 0, 0, 0);
    PrintedGroups(g);
    if from == to {
      ParseWithoutGap(g, PrintGroups(g));
    } else {
      ParseAroundGap(g[..from], g[to..], PrintGroups(g));
      GapIsZeros(g, from, to);
    }
  }

  // --------------------------------------------------------- either family

  predicate IsMapped(a: nat) { MAPPED <= a < MAPPED + V4_ADDRESSES }

  /** net.ParseIP, which reads no zone. */
  function ParseAddr(s: string): Option<nat> {
    if ':' in s then
      match ParseGroups(s)
      case None => None
      case Some(g) => Some(LimbsValue(g, 65536))
    else
      match ParseV4(s)
      case None => None
      case Some(a) => Some(MAPPED + a)
  }

  /** The width of the family s is written in. */
  function AddrBits(s: string): nat { if ':' in s then 128 else 32 }

  /** net.IP.String: dotted whenever net.IP.To4 finds an IPv4 address. */
  function PrintAddr(a: nat): string {
    if IsMapped(a) then PrintV4(a - MAPPED) else PrintGroups(Limbs(a, GROUPS, 65536))
  }

  lemma ColonInGroups(g: seq<nat>)
    requires |g| == GROUPS
    ensures ':' in PrintGroups(g)
  {
    var (from, to) := ZeroRun(g, 0, 0, 0);
    if from == to {
      assert Colons(g)[|HexTexts(g)[0]|] == ':';
    } else {
      assert PrintGroups(g)[|Colons(g[..from])|] == ':';
    }
  }

  /** Printing and reading an address, in either family, loses nothing. */
  lemma ParseOfPrintAddr(a: nat)
    requires a < ADDRESSES
    ensures ParseAddr(PrintAddr(a)) == Some(a)
    ensures AddrBits(PrintAddr(a)) == if IsMapped(a) then 32 else 128
  {
    if IsMapped(a) {
      ParseOfPrintV4(a - MAPPED);
    } else {
      var g := Limbs(a, GROUPS, 65536);
      ColonInGroups(g);
      ParseOfPrintGroups(g);
      PowKnown();
      ValueOfLimbs(a, GROUPS, 65536);
    }
  }

  lemma OneLimbMore(g: seq<nat>, d: nat)
    ensures LimbsValue(g + [d], 65536) == LimbsValue(g, 65536) * 65536 + d
  {
    assert (g + [d])[..|g|] == g;
  }

  lemma MappedValue(a: nat)
    requires a < V4_ADDRESSES
    ensures LimbsValue([0, 0, 0, 0, 0] + [65535] + [a / 65536] + [a % 65536], 65536) == MAPPED + a
  {
    assert LimbsValue([], 65536) == 0;
    hide LimbsValue;
    OneLimbMore([], 0);
    OneLimbMore([0], 0);
    OneLimbMore([0, 0], 0);
    OneLimbMore([0, 0, 0], 0);
    OneLimbMore([0, 0, 0, 0], 0);
    var zeros := [0, 0, 0, 0, 0];
    assert [0] + [0] == [0, 0] && [0, 0] + [0] == [0, 0, 0] && [0, 0, 0] + [0] == [0, 0, 0, 0];
    assert [0, 0, 0, 0] + [0] == zeros && [] + [0] == [0];
    OneLimbMore(zeros, 65535);
    OneLimbMore(zeros + [65535], a / 65536);
    OneLimbMore(zeros + [65535] + [a / 65536], a % 65536);
  }

  lemma FfffIsGroup()
    ensures IsGroup("ffff") && Value("ffff", 16) == 65535 && ':' !in "ffff" && '.' !in "ffff"
  {
    assert Value("f", 16) == 15 by { assert "f"[..0] == ""; }
    assert Value("ff", 16) == 255 by { assert "ff"[..1] == "f"; }
    assert Value("fff", 16) == 4095 by { assert "fff"[..2] == "ff"; }
    assert "ffff"[..3] == "fff";
  }

  lemma MappedGroups(dotted: string)
    requires ParseV4(dotted).Some? && ':' !in dotted && '.' in dotted
    ensures ParseList("ffff:" + dotted, true)
         == Some([65535, ParseV4(dotted).value / 65536, ParseV4(dotted).value % 65536])
  {
    hide ParseV4;
    FfffIsGroup();
    hide Value;
    hide IsGroup;
    SplitPrefix("ffff", ':', dotted);
    SplitNone(dotted, ':');
    assert "ffff" + [':'] + dotted == "ffff:" + dotted;
    var parts := ["ffff", dotted];
    assert ["ffff"] + [dotted] == parts && parts[1..] == [dotted];
    var a := ParseV4(dotted).value;
    assert GroupsOf([dotted], true) == Some([a / 65536, a % 65536]);
    assert [65535] + [a / 65536, a % 65536] == [65535, a / 65536, a % 65536];
    assert Split("ffff:" + dotted, ':') == parts;
    assert GroupsOf(parts, true) == Some([65535] + [a / 65536, a % 65536]);
  }

  /** The dotted form within IPv6 names the same address as the dotted form alone. */
  lemma MappedText(a: nat)
    requires a < V4_ADDRESSES
    ensures ParseAddr("::ffff:" + PrintV4(a)) == ParseAddr(PrintV4(a)) == Some(MAPPED + a)
  {
    hide PrintV4;
    hide ParseV4;
    var dotted := PrintV4(a);
    ParseOfPrintV4(a);
    DotInText(a);
    assert ':' !in dotted && '/' !in dotted;
    MappedGroups(dotted);
    hide ParseList;
    var s := "::ffff:" + dotted;
    assert s[0] == ':' && s[1] == ':' && s[..0] == "" && s[2..] == "ffff:" + dotted;
    assert ParseList("", false) == Some([]) by { EmptyList(); }
    var g := [65535, a / 65536, a % 65536];
    assert ParseGroups(s) == Some([] + Zeros(5) + g);
    assert [] + Zeros(5) + g == [0, 0, 0, 0, 0] + [65535] + [a / 65536] + [a % 65536];
    MappedValue(a);
  }

  lemma EmptyList()
    ensures ParseList("", false) == Some([])
  {
  }

  lemma DotInText(a: nat)
    ensures '.' in PrintV4(a)
  {
    hide Limbs;
    hide Print;
    var texts := OctetTexts(a);
    assert Join(texts, '.') == texts[0] + ['.'] + Join(texts[1..], '.');
    assert Join(texts, '.')[|texts[0]|] == '.';
  }

  lemma {:induction false} ValueBound(s: string)
    requires AllDigits(s, 16) && |s| <= 4
    ensures Value(s, 16) < 65536
    ensures |s| <= 3 ==> Value(s, 16) < 4096
    ensures |s| <= 2 ==> Value(s, 16) < 256
    ensures |s| <= 1 ==> Value(s, 16) < 16
  {
    if s != "" { ValueBound(s[..|s| - 1]); }
  }

  lemma {:induction false} GroupsOfReads(parts: seq<string>, dotted: bool)
    requires GroupsOf(parts, dotted).Some?
    ensures AreGroups(GroupsOf(parts, dotted).value)
    ensures forall i :: 0 <= i < |parts| ==> '/' !in parts[i]
  {
    if parts != [] {
      if |parts| == 1 && dotted && '.' in parts[0] {
        PrintOfParseV4(parts[0]);
        ParseOfPrintV4(ParseV4(parts[0]).value);
      } else {
        GroupsOfReads(parts[1..], dotted);
        ValueBound(parts[0]);
        forall i | 0 <= i < |parts| ensures '/' !in parts[i] {
          if i > 0 { assert parts[i] == parts[1..][i - 1]; }
        }
      }
    }
  }

  lemma ParseListReads(s: string, dotted: bool)
    requires ParseList(s, dotted).Some?
    ensures AreGroups(ParseList(s, dotted).value) && '/' !in s
  {
    if s != "" {
      GroupsOfReads(Split(s, ':'), dotted);
      JoinOfSplit(s, ':');
      JoinChars(Split(s, ':'), ':');
    }
  }

  lemma {:induction false} GapSplits(s: string)
    ensures IndexOfGap(s) < |s| ==> s == s[..IndexOfGap(s)] + "::" + s[IndexOfGap(s) + 2..]
  {
    if |s| >= 2 && !(s[0] == ':' && s[1] == ':') { GapSplits(s[1..]); }
  }

  lemma ParseGroupsReads(s: string)
    requires ParseGroups(s).Some?
    ensures |ParseGroups(s).value| == GROUPS && AreGroups(ParseGroups(s).value) && '/' !in s
  {
    var i := IndexOfGap(s);
    if i == |s| {
      ParseListReads(s, true);
    } else {
      ParseListReads(s[..i], false);
      ParseListReads(s[i + 2..], true);
      GapSplits(s);
    }
  }

  lemma {:induction false} SplitParts(x: string, c: char, y: string)
    ensures Split(x + [c] + y, c) == Split(x, c) + Split(y, c)
  {
    if x == "" {
      assert ([c] + y)[1..] == y && x + [c] + y == [c] + y;
    } else {
      assert (x + [c] + y)[1..] == x[1..] + [c] + y;
      SplitParts(x[1..], c, y);
    }
  }

  /** Only the last part may be dotted, and only where that is allowed. */
  lemma {:induction false} OnlyLastIsDotted(parts: seq<string>, dotted: bool)
    requires GroupsOf(parts, dotted).Some?
    ensures forall i :: 0 <= i < |parts| && (i + 1 < |parts| || !dotted) ==> '.' !in parts[i]
  {
    if parts != [] && !(|parts| == 1 && dotted && '.' in parts[0]) {
      OnlyLastIsDotted(parts[1..], dotted);
      forall i | 0 <= i < |parts| && (i + 1 < |parts| || !dotted) ensures '.' !in parts[i] {
        if i > 0 { assert parts[i] == parts[1..][i - 1]; }
      }
    }
  }

  lemma NotDotted(parts: seq<string>, s: string)
    requires s == Join(parts, ':') && forall i :: 0 <= i < |parts| ==> '.' !in parts[i]
    ensures '.' !in s
  {
    JoinChars(parts, ':');
  }

  lemma ListNotDotted(s: string)
    requires ParseList(s, false).Some?
    ensures '.' !in s
  {
    if s != "" {
      JoinOfSplit(s, ':');
      OnlyLastIsDotted(Split(s, ':'), false);
      NotDotted(Split(s, ':'), s);
    }
  }

  lemma ListDottedLast(x: string, y: string, dotted: bool)
    requires ParseList(x + ":" + y, dotted).Some?
    ensures '.' !in x
  {
    SplitParts(x, ':', y);
    var a, b := Split(x, ':'), Split(y, ':');
    OnlyLastIsDotted(a + b, dotted);
    forall i | 0 <= i < |a| ensures '.' !in a[i] { assert (a + b)[i] == a[i]; }
    JoinOfSplit(x, ':');
    NotDotted(a, x);
  }

  /** Within IPv6 only the last part may be dotted: no colon follows a dot. */
  lemma DottedAtTheEnd(x: string, y: string)
    requires ParseGroups(x + ":" + y).Some?
    ensures '.' !in x
  {
    hide ParseList;
    var s := x + ":" + y;
    var i := IndexOfGap(s);
    if i == |s| {
      ListDottedLast(x, y, true);
    } else {
      ListNotDotted(s[..i]);
      if |x| <= i {
        assert x == s[..i][..|x|];
      } else if |x| == i + 1 {
        assert x == s[..i] + [s[i]];
        GapSplits(s);
      } else {
        GapSplits(s);
        assert x == s[..i] + "::" + x[i + 2..] && s[i + 2..] == x[i + 2..] + ":" + y;
        ListDottedLast(x[i + 2..], y, true);
      }
    }
  }

  lemma ParseAddrReads(s: string)
    requires ParseAddr(s).Some?
    ensures ParseAddr(s).value < ADDRESSES && '/' !in s
    ensures ':' !in s ==> IsMapped(ParseAddr(s).value)
  {
    if ':' in s {
      ParseGroupsReads(s);
      LimbsOfValue(ParseGroups(s).value, 65536);
      PowKnown();
    } else {
      PrintOfParseV4(s);
      ParseOfPrintV4(ParseV4(s).value);
    }
  }
}
