/** The cosmetic pass over the encoded YAML: a blank line before and after a section
    (pkg/haaddon/config.go). */
module BlankLines {
  import opened Strings

  predicate Blank(line: string) { TrimSpace(line) == "" }

  predicate Indented(line: string) { HasPrefix(line, " ") || HasPrefix(line, "\t") }

  predicate IsHeader(line: string, section: string) {
    TrimSpace(line) == section + ":" && !HasPrefix(line, " ") && !HasPrefix(line, "\t")
  }

  /** Blank lines, indented lines and comments do not end a section. */
  predicate Continues(line: string) {
    Blank(line) || Indented(line) || HasPrefix(TrimSpace(line), "#")
  }

  /** A blank line has nothing but white space. */
  lemma BlankExactly(line: string)
    ensures Blank(line) <==> AllSpace(line)
  {
    hide IsSpace;
    var left, right := TrimSpaceCuts(line);
    var t := TrimSpace(line);
    if t != "" { assert line[|left|] == t[0] && line[|left|] in line; }
  }

  /** A header is the section's name and a colon, with white space around them at most,
      but with no blank or tab in front. */
  lemma HeaderLooks(line: string, section: string) returns (left: string, right: string)
    requires IsHeader(line, section)
    ensures AllSpace(left) && AllSpace(right) && line == left + (section + ":") + right
    ensures left == "" || (left[0] != ' ' && left[0] != '\t')
  {
    left, right := TrimSpaceCuts(line);
    hide *;
    if left != "" { NotIndented(left, (section + ":") + right); }
    HeaderIs(line, section);
    assert left + ((section + ":") + right) == line;
  }

  /** And everything that looks like this is one. */
  lemma LooksLikeHeader(left: string, section: string, right: string)
    requires section != "" && !IsSpace(section[0]) && AllSpace(left) && AllSpace(right)
    requires left == "" || (left[0] != ' ' && left[0] != '\t')
    ensures IsHeader(left + (section + ":") + right, section)
  {
    ColonIsNoSpace(section);
    TrimSpaceOf(left, section + ":", right);
    BlankIsSpace();
    hide *;
    var line := left + (section + ":") + right;
    if left == "" {
      NotIndented(section + ":", right);
      assert left + (section + ":") == section + ":";
    } else {
      NotIndented(left, (section + ":") + right);
      assert left + ((section + ":") + right) == line;
    }
    HeaderIs(line, section);
  }

  lemma HeaderIs(line: string, section: string)
    ensures IsHeader(line, section) <==> TrimSpace(line) == section + ":" && !Indented(line)
  {
  }

  lemma BlankIsSpace()
    ensures IsSpace(' ') && IsSpace('\t')
  {
  }

  lemma ColonIsNoSpace(section: string)
    requires section != "" && !IsSpace(section[0])
    ensures var name := section + ":"; name != "" && !IsSpace(name[0]) && !IsSpace(name[|name| - 1])
    ensures !IsSpace('#')
  {
  }

  lemma NotIndented(start: string, rest: string)
    requires start != ""
    ensures Indented(start + rest) <==> start[0] == ' ' || start[0] == '\t'
  {
    assert (start + rest)[0] == start[0];
    assert (start + rest)[..1] == [start[0]];
  }

  /** A section goes on with lines of white space, lines indented by a blank or a tab, and
      comments, which may stand behind any white space. */
  lemma ContinuesExactly(line: string)
    ensures Continues(line) <==>
              || AllSpace(line) || line[0] == ' ' || line[0] == '\t'
              || exists left, rest :: AllSpace(left) && line == left + ("#" + rest)
  {
    BlankExactly(line);
    ColonIsNoSpace("#");
    hide IsSpace;
    var l, r := TrimSpaceCuts(line);
    var t := TrimSpace(line);
    if HasPrefix(t, "#") {
      assert t == "#" + t[1..] && line == l + ("#" + (t[1..] + r));
    }
    if left, rest :| AllSpace(left) && line == left + ("#" + rest) {
      TrimLeftOf(left, "#" + rest);
      var right := TrimEndCuts("#" + rest);
      assert '#' in "#" + rest;
      assert TrimEnd("#" + rest) == "" ==> right == "#" + rest;
    }
    if line != "" {
      NotIndented(line, "");
      assert line + "" == line;
    }
  }

  /** The first header of the section from i on; the length if there is none. */
  function Header(lines: seq<string>, section: string, i: nat := 0): (h: nat)
    requires i <= |lines|
    ensures i <= h <= |lines| && (h < |lines| ==> IsHeader(lines[h], section))
    ensures forall k :: i <= k < h ==> !IsHeader(lines[k], section)
    decreases |lines| - i
  {
    hide IsHeader;
    if i == |lines| || IsHeader(lines[i], section) then i else Header(lines, section, i + 1)
  }

  /** The next root key from i on; the length if there is none. */
  function NextKey(lines: seq<string>, i: nat): (e: nat)
    requires i <= |lines|
    ensures i <= e <= |lines| && (e < |lines| ==> !Continues(lines[e]))
    ensures forall k :: i <= k < e ==> Continues(lines[k])
    decreases |lines| - i
  {
    hide Continues;
    if i == |lines| || !Continues(lines[i]) then i else NextKey(lines, i + 1)
  }

  /** A blank line goes before the header unless there is one. */
  function Gap(lines: seq<string>, h: nat): seq<string>
    requires h < |lines|
  {
    if h == 0 || !Blank(lines[h - 1]) then [""] else []
  }

  /** The lines with the section set off. */
  function Around(lines: seq<string>, h: nat): seq<string>
    requires h < |lines|
  {
    var e := NextKey(lines, h + 1);
    lines[..h] + Gap(lines, h) + lines[h..e] + [""] + lines[e..]
  }

  function LinesOf(text: string): (lines: seq<string>)
    ensures |lines| > 0
  {
    Split(TrimRight(text, '\n'), '\n')
  }

  function Spaced(text: string, section: string): string {
    var lines := LinesOf(text);
    var h := Header(lines, section);
    if h == |lines| then text else Join(Around(lines, h), '\n') + "\n"
  }

  /** The first loop: the root-level header. */
  method FindHeader(lines: seq<string>, section: string) returns (h: nat)
    ensures h == Header(lines, section)
  {
    h := 0;
    while h < |lines|
      invariant h <= |lines|
      invariant forall i :: 0 <= i < h ==> !IsHeader(lines[i], section)
    {
      if IsHeader(lines[h], section) { return; }
      h := h + 1;
    }
  }

  /** The second loop: the last line of the block. */
  method FindEnd(lines: seq<string>, h: nat) returns (end: nat)
    requires h < |lines|
    ensures end + 1 == NextKey(lines, h + 1)
  {
    end := |lines| - 1;
    var i := h + 1;
    while i < |lines|
      invariant h + 1 <= i <= |lines| && end == |lines| - 1
      invariant forall k :: h + 1 <= k < i ==> Continues(lines[k])
    {
      if !Continues(lines[i]) { return i - 1; }
      i := i + 1;
    }
  }

  /** The first insertion: a blank line before the header, unless there is one. */
  method SpaceBefore(lines: seq<string>, h: nat) returns (spread: seq<string>, sec: nat)
    requires h < |lines|
    ensures spread == lines[..h] + Gap(lines, h) + lines[h..] && sec == h + |Gap(lines, h)|
  {
    hide Blank;
    spread, sec := lines, h;
    if sec == 0 || !Blank(lines[sec - 1]) {
      spread := lines[..sec] + [""] + lines[sec..];
      sec := sec + 1;
    }
  }

  /** The second one: a blank line after the block. */
  method SpaceAfter(lines: seq<string>, sec: nat) returns (spread: seq<string>)
    requires sec < |lines|
    ensures var e := NextKey(lines, sec + 1); spread == lines[..e] + [""] + lines[e..]
  {
    hide NextKey;
    hide Blank;
    var end := FindEnd(lines, sec);
    KeyIsNotBlank(lines, sec + 1);
    spread := lines;
    if end == |lines| - 1 || !Blank(lines[end + 1]) {
      spread := lines[..end + 1] + [""] + lines[end + 1..];
    }
  }

  /** addBlankAroundSection. */
  method AddBlankAroundSection(text: string, section: string) returns (r: string)
    ensures r == Spaced(text, section)
  {
    hide *;
    var lines := LinesOf(text);
    var h := FindHeader(lines, section);
    SpacedIs(text, section);
    if h == |lines| { return text; }
    AroundInSteps(lines, h);
    var spread, sec := SpaceBefore(lines, h);
    var around := SpaceAfter(spread, sec);
    return Join(around, '\n') + "\n";
  }

  lemma SpacedIs(text: string, section: string)
    ensures var lines := LinesOf(text);
            var h := Header(lines, section);
            Spaced(text, section) == if h == |lines| then text else Join(Around(lines, h), '\n') + "\n"
  {
  }

  lemma GapIs(lines: seq<string>, h: nat)
    requires h < |lines|
    ensures Gap(lines, h) == if h == 0 || !Blank(lines[h - 1]) then [""] else []
  {
  }

  /** The blank before the header and the blank after the block, one by one. */
  lemma AroundInSteps(lines: seq<string>, h: nat)
    requires h < |lines|
    ensures var gap := Gap(lines, h);
            var spread := lines[..h] + gap + lines[h..];
            var e := NextKey(spread, h + |gap| + 1);
            Around(lines, h) == spread[..e] + [""] + spread[e..]
  {
    hide *;
    var gap := Gap(lines, h);
    AroundIs(lines, h);
    NextKeyMoved(lines, h, gap, |gap|);
  }

  /** The loop stops at no blank line, so the line after a block never is one. */
  lemma KeyIsNotBlank(lines: seq<string>, i: nat)
    requires i <= |lines|
    ensures NextKey(lines, i) < |lines| ==> !Blank(lines[NextKey(lines, i)])
  {
  }

  lemma {:induction false} NextKeyBound(lines: seq<string>, from: nat, e: nat)
    requires from <= e <= |lines| && (e < |lines| ==> !Continues(lines[e]))
    ensures NextKey(lines, from) <= e
    decreases e - from
  {
    if from < e && Continues(lines[from]) { NextKeyBound(lines, from + 1, e); }
  }

  /** The next key of lines that moved by d. */
  lemma NextKeyIs(lines: seq<string>, from: nat, moved: seq<string>, d: nat)
    requires from <= |lines| && |moved| == |lines| + d
    requires forall k :: from <= k < |lines| ==> lines[k] == moved[k + d]
    ensures NextKey(moved, from + d) == NextKey(lines, from) + d
  {
    hide Continues;
    var r, e := NextKey(lines, from), NextKey(moved, from + d) - d;
    NextKeyBound(moved, from + d, r + d);
    NextKeyBound(lines, from, e);
  }

  lemma NextKeyMoved(lines: seq<string>, h: nat, gap: seq<string>, d: nat)
    requires h < |lines| && |gap| == d
    ensures NextKey(lines[..h] + gap + lines[h..], h + d + 1) == NextKey(lines, h + 1) + d
  {
    NextKeyIs(lines, h + 1, lines[..h] + gap + lines[h..], d);
  }

  // -------------------------------------------------------- text and lines

  lemma {:induction false} TrimRightOfMore(s: string, c: char)
    ensures TrimRight(s + [c], c) == TrimRight(s, c)
  {
    assert (s + [c])[..|s|] == s;
  }

  predicate Plain(lines: seq<string>) { forall l :: l in lines ==> '\n' !in l }

  lemma {:induction false} JoinEnds(lines: seq<string>)
    requires |lines| > 0 && lines[|lines| - 1] != ""
    ensures var s := Join(lines, '\n'); s != "" && s[|s| - 1] == lines[|lines| - 1][|lines[|lines| - 1]| - 1]
  {
    if |lines| > 1 { JoinEnds(lines[1..]); }
  }

  lemma {:induction false} JoinMore(lines: seq<string>)
    requires |lines| > 0
    ensures Join(lines + [""], '\n') == Join(lines, '\n') + "\n"
  {
    if |lines| > 1 {
      assert (lines + [""])[1..] == lines[1..] + [""];
      JoinMore(lines[1..]);
    }
  }

  /** What is written is read back, but for blank lines at the end. */
  lemma WrittenLines(lines: seq<string>)
    requires |lines| > 0 && Plain(lines) && lines[|lines| - 1] != ""
    ensures LinesOf(Join(lines, '\n') + "\n") == lines
    ensures LinesOf(Join(lines + [""], '\n') + "\n") == lines
  {
    hide Join;
    hide Split;
    var s := Join(lines, '\n');
    JoinEnds(lines);
    JoinMore(lines);
    TrimRightOfMore(s, '\n');
    TrimRightOfMore(s + "\n", '\n');
    assert lines[|lines| - 1] in lines;
    SplitOfJoin(lines, '\n');
  }

  lemma {:induction false} JoinLastEmpty(lines: seq<string>)
    requires |lines| > 0 && lines[|lines| - 1] == ""
    ensures var s := Join(lines, '\n'); s == "" || s[|s| - 1] == '\n'
  {
    if |lines| > 1 {
      JoinLastEmpty(lines[1..]);
    }
  }

  /** The lines of a text have no line breaks, and only an empty text ends in an
      empty line. */
  lemma LinesFacts(text: string)
    ensures Plain(LinesOf(text))
    ensures LinesOf(text) == [""] || LinesOf(text)[|LinesOf(text)| - 1] != ""
  {
    var s := TrimRight(text, '\n');
    JoinOfSplit(s, '\n');
    var lines := LinesOf(text);
    if lines[|lines| - 1] == "" {
      JoinLastEmpty(lines);
      assert s == "";
    }
  }

  // ------------------------------------------------- what the pass promises

  predicate Found(text: string, section: string) {
    Header(LinesOf(text), section) < |LinesOf(text)|
  }

  /** A root key follows the section. */
  predicate KeyFollows(text: string, section: string)
    requires Found(text, section)
  {
    NextKey(LinesOf(text), Header(LinesOf(text), section) + 1) < |LinesOf(text)|
  }

  lemma FoundIs(text: string, section: string)
    ensures var lines := LinesOf(text);
            var h := Header(lines, section);
            && (Found(text, section) <==> h < |lines|)
            && (Found(text, section) ==> (KeyFollows(text, section) <==> NextKey(lines, h + 1) < |lines|))
  {
    hide LinesOf;
    hide Header;
    hide NextKey;
  }

  lemma AroundIs(lines: seq<string>, h: nat)
    requires h < |lines|
    ensures var e := NextKey(lines, h + 1);
            Around(lines, h) == lines[..h] + Gap(lines, h) + lines[h..e] + [""] + lines[e..]
  {
  }

  lemma AroundPlain(lines: seq<string>, h: nat)
    requires h < |lines| && Plain(lines)
    ensures Plain(Around(lines, h)) && Plain(lines[..h] + Gap(lines, h) + lines[h..])
  {
    hide *;
    AroundIs(lines, h);
    GapIs(lines, h);
    assert forall l :: l in Around(lines, h) ==> l in lines || l == "";
    assert forall l :: l in lines[..h] + Gap(lines, h) + lines[h..] ==> l in lines || l == "";
    PlainIs(lines);
    PlainIs(Around(lines, h));
    PlainIs(lines[..h] + Gap(lines, h) + lines[h..]);
  }

  lemma PlainIs(lines: seq<string>)
    ensures Plain(lines) <==> forall l :: l in lines ==> '\n' !in l
  {
  }

  lemma AroundFacts(lines: seq<string>, h: nat)
    requires h < |lines|
    ensures var a, g, e := Around(lines, h), |Gap(lines, h)|, NextKey(lines, h + 1);
            && |a| == |lines| + g + 1 && a[..h] == lines[..h] && a[h + g] == lines[h] && a[e + g] == ""
            && (g == 1 ==> a[h] == "")
            && (if e < |lines| then a[e + g + 1] == lines[e] && a[|a| - 1] == lines[|lines| - 1]
                else a == lines[..h] + Gap(lines, h) + lines[h..] + [""])
  {
    hide *;
    AroundIs(lines, h);
    GapIs(lines, h);
  }

  /** The lines read back from the written text: all of them, or all but the blank
      line that was added at the very end. */
  lemma LinesOfSpaced(text: string, section: string)
    requires Found(text, section)
    ensures var lines := LinesOf(text);
            var h := Header(lines, section);
            LinesOf(Spaced(text, section)) == if KeyFollows(text, section) then Around(lines, h)
                                              else lines[..h] + Gap(lines, h) + lines[h..]
  {
    hide LinesOf;
    hide TrimSpace;
    hide Gap;
    var lines := LinesOf(text);
    var h := Header(lines, section);
    LinesFacts(text);
    NotEmptyHeader(section);
    AroundFacts(lines, h);
    AroundPlain(lines, h);
    if KeyFollows(text, section) {
      WrittenLines(Around(lines, h));
    } else {
      WrittenLines(lines[..h] + Gap(lines, h) + lines[h..]);
    }
  }

  lemma NotEmptyHeader(section: string)
    ensures !IsHeader("", section)
  {
  }

  lemma {:induction false} HeaderBound(lines: seq<string>, section: string, i: nat, h: nat)
    requires i <= h < |lines| && IsHeader(lines[h], section)
    ensures Header(lines, section, i) <= h
    decreases h - i
  {
    if i < h && !IsHeader(lines[i], section) { HeaderBound(lines, section, i + 1, h); }
  }

  lemma HeaderMoved(lines: seq<string>, section: string, moved: seq<string>, h: nat, g: nat)
    requires h < |lines| && Header(lines, section) == h && g <= 1 && h + g < |moved|
    requires moved[..h] == lines[..h] && moved[h + g] == lines[h] && (g == 1 ==> moved[h] == "")
    ensures Header(moved, section) == h + g
  {
    hide IsHeader;
    NotEmptyHeader(section);
    HeaderBound(moved, section, 0, h + g);
    assert forall k :: 0 <= k < h ==> moved[k] == moved[..h][k] == lines[..h][k];
  }

  lemma SpreadFacts(lines: seq<string>, h: nat)
    requires h < |lines|
    ensures var m, g := lines[..h] + Gap(lines, h) + lines[h..], |Gap(lines, h)|;
            && |m| == |lines| + g && m[..h] == lines[..h] && m[h + g] == lines[h] && (g == 1 ==> m[h] == "")
  {
    hide *;
    GapIs(lines, h);
  }

  /** Where the lines before the header are the same, the gap is there already. */
  lemma HeaderAgain(lines: seq<string>, section: string, moved: seq<string>)
    requires Header(lines, section) < |lines|
    requires var h := Header(lines, section);
             var g := |Gap(lines, h)|;
             && h + g < |moved| && moved[..h] == lines[..h] && moved[h + g] == lines[h] && (g == 1 ==> moved[h] == "")
    ensures var h2 := Header(lines, section) + |Gap(lines, Header(lines, section))|;
            Header(moved, section) == h2 && Gap(moved, h2) == []
  {
    hide *;
    var h := Header(lines, section);
    var g := |Gap(lines, h)|;
    GapIs(lines, h);
    HeaderMoved(lines, section, moved, h, g);
    GapIs(moved, h + g);
    EmptyIsBlank();
    assert g == 0 && h > 0 ==> moved[h - 1] == moved[..h][h - 1] == lines[h - 1];
  }

  /** A second pass finds the header where the first one put it, with a blank line
      in front. */
  lemma SecondPass(text: string, section: string)
    requires Found(text, section)
    ensures var lines := LinesOf(text);
            var h := Header(lines, section);
            var g := |Gap(lines, h)|;
            var again := LinesOf(Spaced(text, section));
            && h + g < |again| && Header(again, section) == h + g && Gap(again, h + g) == []
            && NextKey(again, h + g + 1)
               == (if KeyFollows(text, section) then NextKey(lines, h + 1) + 1 else |lines|) + g
  {
    hide *;
    FoundIs(text, section);
    var lines := LinesOf(text);
    var h := Header(lines, section);
    LinesOfSpaced(text, section);
    HeaderAgain(lines, section, LinesOf(Spaced(text, section))) by {
      AroundFacts(lines, h);
      SpreadFacts(lines, h);
    }
    if KeyFollows(text, section) {
      BlockGrows(lines, h);
    } else {
      NextKeyMoved(lines, h, Gap(lines, h), |Gap(lines, h)|);
    }
  }

  lemma EmptyIsBlank()
    ensures Blank("") && Continues("")
  {
  }

  lemma BlockGrows(lines: seq<string>, h: nat)
    requires h < |lines| && NextKey(lines, h + 1) < |lines|
    ensures var g, e := |Gap(lines, h)|, NextKey(lines, h + 1); NextKey(Around(lines, h), h + g + 1) == e + g + 1
  {
    hide Continues;
    hide Blank;
    var a, g, e := Around(lines, h), |Gap(lines, h)|, NextKey(lines, h + 1);
    assert a[e + g + 1] == lines[e] && a[e + g] == "";
    EmptyIsBlank();
    NextKeyBound(a, h + g + 1, e + g + 1);
    assert forall k :: h + g + 1 <= k < e + g ==> a[k] == lines[k - g];
  }

  lemma AroundAtEnd(lines: seq<string>, h: nat)
    requires h < |lines| && NextKey(lines, h + 1) == |lines|
    ensures Around(lines, h) == lines[..h] + Gap(lines, h) + lines[h..] + [""]
  {
    hide NextKey;
    hide Gap;
  }

  lemma AroundLength(lines: seq<string>, h: nat)
    requires h < |lines|
    ensures |Around(lines, h)| == |lines| + |Gap(lines, h)| + 1
  {
    hide NextKey;
    hide Gap;
  }

  lemma NoGap(lines: seq<string>, h: nat)
    requires h <= |lines|
    ensures lines[..h] + [] + lines[h..] == lines
  {
  }

  lemma StableAtEnd(text: string, section: string)
    requires Found(text, section) && !KeyFollows(text, section)
    ensures Spaced(Spaced(text, section), section) == Spaced(text, section)
  {
    hide *;
    FoundIs(text, section);
    SpacedIs(text, section);
    SpacedIs(Spaced(text, section), section);
    var lines := LinesOf(text);
    var h := Header(lines, section);
    SecondPass(text, section);
    LinesOfSpaced(text, section);
    AroundAtEnd(lines, h);
    var again := LinesOf(Spaced(text, section));
    var h2 := h + |Gap(lines, h)|;
    AroundAtEnd(again, h2);
    NoGap(again, h2);
  }

  lemma GrowsBeforeKey(text: string, section: string)
    requires Found(text, section) && KeyFollows(text, section)
    ensures Spaced(Spaced(text, section), section) != Spaced(text, section)
  {
    hide *;
    FoundIs(text, section);
    FoundIs(Spaced(text, section), section);
    SecondPass(text, section);
    LinesOfSpaced(text, section);
    var lines := LinesOf(text);
    var h := Header(lines, section);
    var out := Spaced(text, section);
    AroundLength(lines, h);
    assert Found(out, section) && KeyFollows(out, section);
    LinesOfSpaced(out, section);
    AroundLength(LinesOf(out), h + |Gap(lines, h)|);
  }

  /** The pass is idempotent on a text if and only if no root key follows the section
      in it: where one does, every pass adds another blank line. */
  lemma SpacedTwiceExactly(text: string, section: string)
    ensures Spaced(Spaced(text, section), section) == Spaced(text, section)
            <==> (Found(text, section) ==> !KeyFollows(text, section))
  {
    if Found(text, section) {
      if KeyFollows(text, section) {
        GrowsBeforeKey(text, section);
      } else {
        StableAtEnd(text, section);
      }
    }
  }

  /** The lines without the blank ones. */
  function Visible(lines: seq<string>): seq<string> {
    if lines == [] then []
    else (if Blank(lines[0]) then [] else [lines[0]]) + Visible(lines[1..])
  }

  lemma {:induction false} VisibleOfMore(a: seq<string>, b: seq<string>)
    ensures Visible(a + b) == Visible(a) + Visible(b)
  {
    hide Blank;
    if a == [] {
      assert a + b == b;
    } else {
      assert (a + b)[1..] == a[1..] + b;
      VisibleOfMore(a[1..], b);
    }
  }

  lemma VisibleBlank()
    ensures Visible([""]) == [] && Visible([]) == []
  {
  }

  lemma VisibleInsert(a: seq<string>, b: seq<string>)
    ensures Visible(a + [""] + b) == Visible(a + b)
  {
    hide Blank;
    hide Visible;
    VisibleBlank();
    VisibleOfMore(a + [""], b);
    VisibleOfMore(a, [""]);
    VisibleOfMore(a, b);
  }

  lemma VisibleInsertAt(lines: seq<string>, e: nat)
    requires e <= |lines|
    ensures Visible(lines[..e] + [""] + lines[e..]) == Visible(lines)
  {
    hide *;
    VisibleInsert(lines[..e], lines[e..]);
    assert lines[..e] + lines[e..] == lines;
  }

  lemma VisibleGap(lines: seq<string>, h: nat)
    requires h < |lines|
    ensures Visible(lines[..h] + Gap(lines, h) + lines[h..]) == Visible(lines)
  {
    hide *;
    GapIs(lines, h);
    if Gap(lines, h) == [] {
      assert lines[..h] + [] + lines[h..] == lines;
    } else {
      VisibleInsertAt(lines, h);
    }
  }

  lemma VisibleAround(lines: seq<string>, h: nat)
    requires h < |lines|
    ensures Visible(Around(lines, h)) == Visible(lines)
  {
    hide *;
    AroundInSteps(lines, h);
    var gap := Gap(lines, h);
    VisibleGap(lines, h);
    VisibleInsertAt(lines[..h] + gap + lines[h..], NextKey(lines[..h] + gap + lines[h..], h + |gap| + 1));
  }

  /** The pass inserts blank lines, at most two, and does nothing else. */
  lemma InsertsOnlyBlanks(text: string, section: string)
    ensures Visible(LinesOf(Spaced(text, section))) == Visible(LinesOf(text))
    ensures |LinesOf(text)| <= |LinesOf(Spaced(text, section))| <= |LinesOf(text)| + 2
  {
    hide LinesOf;
    hide NextKey;
    hide Around;
    if Found(text, section) {
      LinesOfSpaced(text, section);
      VisibleAround(LinesOf(text), Header(LinesOf(text), section));
      VisibleGap(LinesOf(text), Header(LinesOf(text), section));
      AroundLength(LinesOf(text), Header(LinesOf(text), section));
    }
  }

  /** In what is written, the header has a blank line in front of it, and the block
      up to the next root key has one behind it. */
  lemma SectionIsSetOff(text: string, section: string)
    requires Found(text, section)
    ensures var a := Around(LinesOf(text), Header(LinesOf(text), section));
            var h := Header(a, section);
            && Spaced(text, section) == Join(a, '\n') + "\n"
            && 0 < h < |a| && Blank(a[h - 1]) && Blank(a[NextKey(a, h + 1) - 1])
  {
    hide *;
    FoundIs(text, section);
    SpacedIs(text, section);
    var lines := LinesOf(text);
    var h := Header(lines, section);
    var a, g := Around(lines, h), |Gap(lines, h)|;
    LinesFacts(text);
    NotEmptyHeader(section);
    AroundFacts(lines, h);
    GapIs(lines, h);
    HeaderMoved(lines, section, a, h, g);
    EmptyIsBlank();
    assert g == 0 ==> a[h - 1] == a[..h][h - 1] == lines[h - 1];
    if KeyFollows(text, section) {
      BlockGrows(lines, h);
    } else {
      BlockEnds(lines, h);
    }
  }

  lemma BlockEnds(lines: seq<string>, h: nat)
    requires h < |lines| && NextKey(lines, h + 1) == |lines|
    ensures var a := Around(lines, h); NextKey(a, h + |Gap(lines, h)| + 1) == |a| && a[|a| - 1] == ""
  {
    hide Continues;
    hide Blank;
    var a, g := Around(lines, h), |Gap(lines, h)|;
    EmptyIsBlank();
    assert forall k :: h + g + 1 <= k < |a| - 1 ==> a[k] == lines[k - g];
  }

  /** Deleting the blank lines of what was written for a text without any, and running
      the pass again, writes the same. */
  lemma StripAndRerun(text: string, section: string)
    requires Found(text, section) && Visible(LinesOf(text)) == LinesOf(text)
    ensures var written := Spaced(text, section);
            Spaced(Join(Visible(LinesOf(written)), '\n') + "\n", section) == written
  {
    hide *;
    var lines := LinesOf(text);
    InsertsOnlyBlanks(text, section);
    LinesFacts(text);
    FoundIs(text, section);
    NotEmptyHeader(section);
    WrittenLines(lines);
    SpacedIs(text, section);
    SpacedIs(Join(lines, '\n') + "\n", section);
  }

  lemma NoSpace(line: string)
    requires line != "" && forall c :: c in line ==> !IsSpace(c)
    ensures TrimSpace(line) == line && !Indented(line)
  {
    assert line[0] in line && line[|line| - 1] in line;
  }

  lemma HeaderAndKey()
    ensures IsHeader("http:", "http") && !Continues("other:")
  {
    hide TrimLeft;
    hide TrimEnd;
    NoSpace("http:");
    NoSpace("other:");
    assert "http" + ":" == "http:";
    assert "other:"[0] == 'o';
  }

  lemma TwoLines()
    ensures LinesOf("http:\nother:\n") == ["http:", "other:"]
  {
    hide *;
    var lines := ["http:", "other:"];
    JoinsTwo("http:", "other:");
    PlainIs(lines);
    WrittenLines(lines);
    assert "http:" + ['\n'] + "other:" + "\n" == "http:\nother:\n";
  }

  lemma JoinsTwo(a: string, b: string)
    ensures Join([a, b], '\n') == a + ['\n'] + b
  {
    assert [a, b][1..] == [b];
  }

  /** A text that grows with every pass. */
  lemma GrowsWithEveryPass()
    ensures var text := "http:\nother:\n"; Spaced(Spaced(text, "http"), "http") != Spaced(text, "http")
  {
    hide *;
    var text := "http:\nother:\n";
    TwoLines();
    HeaderAndKey();
    HeaderBound(LinesOf(text), "http", 0, 0);
    NextKeyBound(LinesOf(text), 1, 1);
    FoundIs(text, "http");
    SpacedTwiceExactly(text, "http");
  }
}
