/** Trusting a subnet through configuration.yaml: a tree of nodes edited in place
    (pkg/haaddon/config.go). */
module YamlTree {

  /** Nothing is the kind of a node nobody filled: what an empty file decodes to. */
  datatype Kind = Nothing | Document | Mapping | Sequence | Scalar | Alias

  /** The value of a node: a mapping's content alternates keys and values. The notes
      are its comments, style and anchor, which the program never looks at. */
  datatype Tree = Tree(kind: Kind, tag: string, value: string, notes: string, content: seq<Tree>)

  /** Panicked: the program reads past the end of a list, and ends. */
  datatype Outcome = Done | Failed | Panicked

  function Scalarised(t: Tree, tag: string, value: string): Tree {
    t.(kind := Scalar, tag := tag, value := value)
  }

  // ----------------------------------------------------- the edits on values

  predicate Matches(t: Tree, key: string, anyKind: bool) {
    (anyKind || t.kind.Scalar?) && t.value == key
  }

  predicate Paired(c: seq<Tree>) { |c| % 2 == 0 }

  /** The first key that matches, at an even index; the length if there is none. */
  function Find(c: seq<Tree>, key: string, anyKind: bool, i: nat := 0): (r: nat)
    requires i % 2 == 0
    ensures r <= |c| && (r < |c| ==> i <= r && r % 2 == 0 && Matches(c[r], key, anyKind))
    ensures forall j :: i <= j < r && j % 2 == 0 ==> !Matches(c[j], key, anyKind)
    decreases if i <= |c| then |c| - i else 0
  {
    if i >= |c| then |c| else if Matches(c[i], key, anyKind) then i else Find(c, key, anyKind, i + 2)
  }

  function Text(value: string): Tree { Tree(Scalar, "!!str", value, "", []) }

  const FORWARDED: string := "use_x_forwarded_for"
  const PROXIES: string := "trusted_proxies"

  /** setScalarInMapping: whatever the value was becomes the scalar; its children, if
      any, stay attached. */
  function WithScalar(m: Tree, key: string, tag: string, value: string): Tree
    requires Paired(m.content)
  {
    var i := Find(m.content, key, false);
    if i < |m.content| then
      m.(content := m.content[i + 1 := Scalarised(m.content[i + 1], tag, value)])
    else
      m.(content := m.content + [Text(key), Tree(Scalar, tag, value, "", [])])
  }

  predicate Contains(c: seq<Tree>, v: string) {
    exists i :: 0 <= i < |c| && Matches(c[i], v, false)
  }

  function Extended(s: Tree, v: string): Tree {
    if Contains(s.content, v) then s else s.(content := s.content + [Text(v)])
  }

  /** ensureSequenceInMapping, and the proxy appended to what it returns. */
  function WithProxy(m: Tree, subnet: string): Tree
    requires Paired(m.content)
  {
    var i := Find(m.content, PROXIES, true);
    if i < |m.content| && m.content[i + 1].kind.Sequence? then
      m.(content := m.content[i + 1 := Extended(m.content[i + 1], subnet)])
    else
      m.(content := m.content + [Text(PROXIES), Extended(Tree(Sequence, "!!seq", "", "", []), subnet)])
  }

  function EmptyMapping(): Tree { Tree(Mapping, "!!map", "", "", []) }

  /** The http key comes last and has no value, which a mapping never has but a
      sequence that ends in the word http does: the source reads past its end. */
  predicate Dangling(root: Tree) {
    Find(root.content, "http", false) + 1 == |root.content|
  }

  /** An http mapping comes in pairs. */
  predicate PairedSection(root: Tree) {
    var i := Find(root.content, "http", false);
    i + 1 < |root.content| && root.content[i + 1].kind.Mapping? ==> Paired(root.content[i + 1].content)
  }

  predicate Patchable(root: Tree) { !Dangling(root) && PairedSection(root) }

  /** What a patch appends is where the next search finds it. */
  predicate WellPaired(root: Tree)
    ensures WellPaired(root) ==> Patchable(root)
  {
    Patchable(root) && (Find(root.content, "http", false) < |root.content| || Paired(root.content))
  }

  /** The http mapping a patch starts from. */
  function Section(root: Tree): (m: Tree)
    requires Patchable(root)
    ensures Paired(m.content) && m.kind.Mapping?
  {
    var i := Find(root.content, "http", false);
    if i < |root.content| && root.content[i + 1].kind.Mapping? then root.content[i + 1] else EmptyMapping()
  }

  function PatchedSection(m: Tree, subnet: string): Tree
    requires Paired(m.content)
  {
    WithProxy(WithScalar(m, FORWARDED, "!!bool", "true"), subnet)
  }

  function WithSection(root: Tree, m: Tree): Tree
    requires Patchable(root)
  {
    var i := Find(root.content, "http", false);
    root.(content := if i < |root.content| then root.content[i + 1 := m] else root.content + [Text("http"), m])
  }

  /** patchHTTPSection between decoding and encoding. */
  function Patched(root: Tree, subnet: string): Tree
    requires Patchable(root)
  {
    WithSection(root, PatchedSection(Section(root), subnet))
  }

  // ------------------------------------------------- what the edits promise

  /** A key that is not found up to some point is found where it is next. */
  lemma {:induction false} FindIs(c: seq<Tree>, key: string, anyKind: bool, i: nat, r: nat)
    requires i % 2 == 0 && r <= |c| && (r < |c| ==> i <= r && r % 2 == 0 && Matches(c[r], key, anyKind))
    requires forall j :: i <= j < r && j % 2 == 0 ==> !Matches(c[j], key, anyKind)
    ensures Find(c, key, anyKind, i) == r
    decreases if i <= |c| then |c| - i else 0
  {
    if i < r { FindIs(c, key, anyKind, i + 2, r); }
  }

  /** Replacing a value leaves every search as it was. */
  lemma FindKeepsOnValue(c: seq<Tree>, k: nat, v: Tree, key: string, anyKind: bool)
    requires k % 2 == 0 && k + 1 < |c|
    ensures Find(c[k + 1 := v], key, anyKind) == Find(c, key, anyKind)
  {
    FindIs(c[k + 1 := v], key, anyKind, 0, Find(c, key, anyKind));
  }

  /** A new pair is found last, and only under its own key. */
  lemma FindOnAppend(c: seq<Tree>, k: string, v: Tree, key: string, anyKind: bool)
    requires Paired(c)
    ensures var r := Find(c, key, anyKind);
            Find(c + [Text(k), v], key, anyKind) == if r < |c| || k == key then r else |c| + 2
  {
    var r := Find(c, key, anyKind);
    FindIs(c + [Text(k), v], key, anyKind, 0, if r < |c| || k == key then r else |c| + 2);
  }

  /** trusted_proxies, where it is present, is a sequence. */
  predicate Usable(m: Tree)
    requires Paired(m.content)
  {
    var k := Find(m.content, PROXIES, true);
    k < |m.content| ==> m.content[k + 1].kind.Sequence?
  }

  predicate Forwards(m: Tree)
    requires Paired(m.content)
  {
    var f := Find(m.content, FORWARDED, false);
    f < |m.content| && var v := m.content[f + 1]; v.kind.Scalar? && v.tag == "!!bool" && v.value == "true"
  }

  /** The proxies in force, if there is such a list. */
  function Proxies(m: Tree): seq<Tree>
    requires Paired(m.content)
  {
    var k := Find(m.content, PROXIES, true);
    if k < |m.content| && m.content[k + 1].kind.Sequence? then m.content[k + 1].content else []
  }

  predicate HasSection(root: Tree)
    requires Patchable(root)
  {
    var i := Find(root.content, "http", false);
    i < |root.content| && root.content[i + 1].kind.Mapping?
  }

  /** The configuration already trusts the subnet. */
  predicate Settled(root: Tree, subnet: string)
    requires Patchable(root)
  {
    HasSection(root) && Forwards(Section(root)) && Contains(Proxies(Section(root)), subnet)
  }

  lemma ScalarForwards(m: Tree)
    requires Paired(m.content)
    ensures var n := WithScalar(m, FORWARDED, "!!bool", "true");
            Paired(n.content) && Forwards(n) && (n == m <==> Forwards(m))
  {
    hide Find;
    var i := Find(m.content, FORWARDED, false);
    if i < |m.content| {
      FindKeepsOnValue(m.content, i, Scalarised(m.content[i + 1], "!!bool", "true"), FORWARDED, false);
    } else {
      FindOnAppend(m.content, FORWARDED, Tree(Scalar, "!!bool", "true", "", []), FORWARDED, false);
    }
  }

  lemma ScalarKeepsProxies(m: Tree)
    requires Paired(m.content)
    ensures var n := WithScalar(m, FORWARDED, "!!bool", "true");
            n.kind == m.kind && Paired(n.content) && Proxies(n) == Proxies(m) && (Usable(n) <==> Usable(m))
  {
    hide Find;
    var i := Find(m.content, FORWARDED, false);
    if i < |m.content| {
      FindKeepsOnValue(m.content, i, Scalarised(m.content[i + 1], "!!bool", "true"), PROXIES, true);
    } else {
      FindOnAppend(m.content, FORWARDED, Tree(Scalar, "!!bool", "true", "", []), PROXIES, true);
    }
  }

  lemma NoneContained(v: string)
    ensures !Contains([], v)
  {
  }

  lemma ContainsExtended(s: Tree, v: string, w: string)
    ensures Contains(Extended(s, v).content, v)
    ensures Contains(s.content, w) ==> Contains(Extended(s, v).content, w)
    ensures Extended(s, v) == s <==> Contains(s.content, v)
  {
    var t := Extended(s, v);
    if !Contains(s.content, v) { assert Matches(t.content[|s.content|], v, false); }
    if Contains(s.content, w) {
      var i :| 0 <= i < |s.content| && Matches(s.content[i], w, false);
      assert Matches(t.content[i], w, false);
    }
  }

  /** A usable list is extended; any other value under the key stays in front, and
      the list appended behind it is not found. */
  lemma ProxyFacts(m: Tree, subnet: string)
    requires Paired(m.content) && m.kind.Mapping?
    ensures var n := WithProxy(m, subnet);
            && Paired(n.content) && n.kind.Mapping? && (Usable(n) <==> Usable(m))
            && (Usable(m) ==> Proxies(n) == Proxies(m) + if Contains(Proxies(m), subnet) then [] else [Text(subnet)])
            && (Usable(m) ==> Contains(Proxies(n), subnet))
            && (!Usable(m) ==> |n.content| == |m.content| + 2 && Proxies(n) == [])
            && (n == m <==> Contains(Proxies(m), subnet))
  {
    hide Contains;
    hide Find;
    var k := Find(m.content, PROXIES, true);
    if k < |m.content| && m.content[k + 1].kind.Sequence? {
      var v := Extended(m.content[k + 1], subnet);
      ContainsExtended(m.content[k + 1], subnet, subnet);
      FindKeepsOnValue(m.content, k, v, PROXIES, true);
    } else {
      var none := Tree(Sequence, "!!seq", "", "", []);
      var v := Extended(none, subnet);
      ContainsExtended(none, subnet, subnet);
      NoneContained(subnet);
      FindOnAppend(m.content, PROXIES, v, PROXIES, true);
    }
  }

  lemma ProxyKeepsForwards(m: Tree, subnet: string)
    requires Paired(m.content)
    ensures var n := WithProxy(m, subnet); Paired(n.content) && (Forwards(m) ==> Forwards(n))
  {
    hide Find;
    var k := Find(m.content, PROXIES, true);
    if k < |m.content| && m.content[k + 1].kind.Sequence? {
      FindKeepsOnValue(m.content, k, Extended(m.content[k + 1], subnet), FORWARDED, false);
    } else {
      FindOnAppend(m.content, PROXIES, Extended(Tree(Sequence, "!!seq", "", "", []), subnet), FORWARDED, false);
    }
  }

  lemma ContainsAppended(c: seq<Tree>, v: string, w: string)
    ensures Contains(c + [Text(v)], w) <==> Contains(c, w) || v == w
  {
    if Contains(c, w) {
      var i :| 0 <= i < |c| && Matches(c[i], w, false);
      assert Matches((c + [Text(v)])[i], w, false);
    }
    if v == w { assert Matches((c + [Text(v)])[|c|], w, false); }
  }

  /** What the patch does to the http mapping. */
  lemma SectionFacts(m: Tree, subnet: string)
    requires Paired(m.content) && m.kind.Mapping?
    ensures var n := PatchedSection(m, subnet);
            && Paired(n.content) && n.kind.Mapping? && Forwards(n) && (Usable(n) <==> Usable(m))
            && (Usable(m) ==> Proxies(n) == Proxies(m) + if Contains(Proxies(m), subnet) then [] else [Text(subnet)])
            && (Usable(m) ==> Contains(Proxies(n), subnet))
            && (!Usable(m) ==> Proxies(n) == [] && |n.content| > |m.content|)
            && (n == m <==> Forwards(m) && Contains(Proxies(m), subnet))
  {
    hide Find;
    ScalarForwards(m);
    ScalarKeepsProxies(m);
    ProxyFacts(WithScalar(m, FORWARDED, "!!bool", "true"), subnet);
    ProxyKeepsForwards(WithScalar(m, FORWARDED, "!!bool", "true"), subnet);
  }

  lemma WithSectionFacts(root: Tree, m: Tree)
    requires WellPaired(root) && Paired(m.content) && m.kind.Mapping?
    ensures var t := WithSection(root, m);
            && WellPaired(t) && HasSection(t) && Section(t) == m
            && (t == root <==> HasSection(root) && Section(root) == m)
  {
    hide Find;
    var i := Find(root.content, "http", false);
    if i < |root.content| {
      FindKeepsOnValue(root.content, i, m, "http", false);
    } else {
      FindOnAppend(root.content, "http", m, "http", false);
    }
  }

  /** One patch of a usable section makes it trust the subnet, and keeps every proxy
      it had, in order and in front. */
  lemma PatchTrusts(root: Tree, subnet: string)
    requires WellPaired(root)
    ensures var t := Patched(root, subnet);
            && WellPaired(t) && HasSection(t) && Forwards(Section(t)) && (Usable(Section(t)) <==> Usable(Section(root)))
            && (Usable(Section(root)) ==>
                  Settled(t, subnet)
                  && Proxies(Section(t))
                     == Proxies(Section(root))
                        + if Contains(Proxies(Section(root)), subnet) then [] else [Text(subnet)])
            && (!Usable(Section(root)) ==> Proxies(Section(t)) == [])
  {
    hide Contains;
    hide Find;
    var m := PatchedSection(Section(root), subnet);
    SectionFacts(Section(root), subnet);
    WithSectionFacts(root, m);
  }

  /** A patch changes nothing if and only if the configuration is settled. */
  lemma UnchangedExactly(root: Tree, subnet: string)
    requires WellPaired(root)
    ensures Patched(root, subnet) == root <==> Settled(root, subnet)
  {
    hide Find;
    SectionFacts(Section(root), subnet);
    WithSectionFacts(root, PatchedSection(Section(root), subnet));
  }

  /** Behind an odd number of elements an appended http key stands where no search
      looks for it. */
  lemma AppendedOutOfReach(root: Tree, subnet: string)
    requires Patchable(root) && !WellPaired(root)
    ensures Patchable(Patched(root, subnet)) && !WellPaired(Patched(root, subnet))
    ensures |Patched(root, subnet).content| == |root.content| + 2
  {
    hide Find;
    hide PatchedSection;
    var m := PatchedSection(Section(root), subnet);
    SectionFacts(Section(root), subnet);
    FindIs(root.content + [Text("http"), m], "http", false, 0, |root.content| + 2);
  }

  /** The patch is idempotent if and only if the next search finds what it appends,
      and trusted_proxies, where present in the http mapping, is a sequence. */
  lemma PatchIdempotentExactly(root: Tree, subnet: string)
    requires Patchable(root)
    ensures Patchable(Patched(root, subnet))
    ensures Patched(Patched(root, subnet), subnet) == Patched(root, subnet)
            <==> WellPaired(root) && Usable(Section(root))
  {
    hide Patched;
    if WellPaired(root) {
      PatchTrusts(root, subnet);
      UnchangedExactly(Patched(root, subnet), subnet);
    } else {
      AppendedOutOfReach(root, subnet);
      AppendedOutOfReach(Patched(root, subnet), subnet);
    }
  }

  /** A list written as one address, and a root that is a list: each patch appends
      once more. */
  lemma PatchTwiceAppendsTwice()
    ensures var section := Tree(Mapping, "!!map", "", "", [Text(PROXIES), Text("10.0.0.1")]);
            var root := Tree(Mapping, "!!map", "", "", [Text("http"), section]);
            && WellPaired(root) && Patched(Patched(root, "10.0.0.0/24"), "10.0.0.0/24") != Patched(root, "10.0.0.0/24")
    ensures var root := Tree(Sequence, "!!seq", "", "", [Text("a")]);
            && Patchable(root) && Patchable(Patched(root, "10.0.0.0/24"))
            && Patched(Patched(root, "10.0.0.0/24"), "10.0.0.0/24") != Patched(root, "10.0.0.0/24")
  {
    var section := Tree(Mapping, "!!map", "", "", [Text(PROXIES), Text("10.0.0.1")]);
    var root := Tree(Mapping, "!!map", "", "", [Text("http"), section]);
    hide Patched;
    FindIs(root.content, "http", false, 0, 0);
    FindIs(section.content, PROXIES, true, 0, 0);
    PatchIdempotentExactly(root, "10.0.0.0/24");
    var list := Tree(Sequence, "!!seq", "", "", [Text("a")]);
    FindIs(list.content, "http", false, 0, 1);
    PatchIdempotentExactly(list, "10.0.0.0/24");
  }

  /** The values a patch may replace: the flag, and a usable list of proxies. */
  predicate IsEdited(m: Tree, j: nat)
    requires Paired(m.content)
  {
    j == Find(m.content, FORWARDED, false) + 1 || (j == Find(m.content, PROXIES, true) + 1 && Usable(m))
  }

  /** All elements but the value of http stay, in place. */
  predicate RootKept(root: Tree, t: Tree)
  {
    var i := Find(root.content, "http", false);
    && t.kind == root.kind && t.tag == root.tag && t.value == root.value && t.notes == root.notes
    && |t.content| == |root.content| + (if i < |root.content| then 0 else 2)
    && (forall j :: 0 <= j < |root.content| && j != i + 1 ==> t.content[j] == root.content[j])
    && (i == |root.content| ==> t.content[i] == Text("http"))
  }

  /** The mapping itself stays, and all keys and values but the edited ones, in place. */
  predicate PairsKept(m: Tree, n: Tree)
    requires Paired(m.content)
  {
    && n.kind == m.kind && n.tag == m.tag && n.value == m.value && n.notes == m.notes
    && |m.content| <= |n.content|
    && forall j :: 0 <= j < |m.content| && !IsEdited(m, j) ==> n.content[j] == m.content[j]
  }

  /** Everything else stays, in place and in order: the other pairs of the root, and
      the other pairs of an http mapping. */
  lemma PatchFrame(root: Tree, subnet: string)
    requires WellPaired(root)
    ensures WellPaired(Patched(root, subnet)) && RootKept(root, Patched(root, subnet))
    ensures PairsKept(Section(root), Section(Patched(root, subnet)))
  {
    hide *;
    PatchTrusts(root, subnet);
    PatchIsWithSection(root, subnet);
    SectionFacts(Section(root), subnet);
    WithSectionFacts(root, PatchedSection(Section(root), subnet));
    RootFrame(root, PatchedSection(Section(root), subnet));
    SectionFrame(Section(root), subnet);
  }

  lemma PatchIsWithSection(root: Tree, subnet: string)
    requires WellPaired(root)
    ensures Patched(root, subnet) == WithSection(root, PatchedSection(Section(root), subnet))
  {
  }

  lemma RootFrame(root: Tree, m: Tree)
    requires Patchable(root)
    ensures RootKept(root, WithSection(root, m))
  {
    hide Find;
  }

  lemma ScalarFrame(m: Tree)
    requires Paired(m.content)
    ensures var n := WithScalar(m, FORWARDED, "!!bool", "true");
            && n == m.(content := n.content) && Paired(n.content) && |m.content| <= |n.content|
            && (forall j :: 0 <= j < |m.content| && j != Find(m.content, FORWARDED, false) + 1 ==>
                  n.content[j] == m.content[j])
            && (Find(m.content, PROXIES, true) < |m.content| ==>
                  Find(n.content, PROXIES, true) == Find(m.content, PROXIES, true))
            && (Find(m.content, PROXIES, true) == |m.content| ==> Find(n.content, PROXIES, true) == |n.content|)
  {
    hide Find;
    var i := Find(m.content, FORWARDED, false);
    var n := WithScalar(m, FORWARDED, "!!bool", "true");
    if i < |m.content| {
      FindKeepsOnValue(m.content, i, n.content[i + 1], PROXIES, true);
    } else {
      FindOnAppend(m.content, FORWARDED, n.content[i + 1], PROXIES, true);
    }
  }

  lemma ProxyFrame(m: Tree, subnet: string)
    requires Paired(m.content)
    ensures var n := WithProxy(m, subnet);
            && n == m.(content := n.content) && |m.content| <= |n.content|
            && forall j :: 0 <= j < |m.content| && !(j == Find(m.content, PROXIES, true) + 1 && Usable(m)) ==>
                 n.content[j] == m.content[j]
  {
    hide Find;
    hide Extended;
  }

  lemma SectionFrame(m: Tree, subnet: string)
    requires Paired(m.content) && m.kind.Mapping?
    ensures PairsKept(m, PatchedSection(m, subnet))
  {
    hide Find;
    hide WithScalar;
    hide WithProxy;
    hide Usable;
    ScalarFrame(m);
    ScalarKeepsProxies(m);
    ProxyFrame(WithScalar(m, FORWARDED, "!!bool", "true"), subnet);
  }

  // ------------------------------------------------------- the tree as written

  /** r is where a reader of the mapping finds the key: keys stand at even places, and the
      first one with the text counts, of any kind or only a scalar. */
  predicate IsFirstKey(c: seq<Tree>, key: string, anyKind: bool, r: nat) {
    && r + 1 < |c| && r % 2 == 0 && c[r].value == key && (anyKind || c[r].kind == Scalar)
    && forall j :: 0 <= j < r && j % 2 == 0 ==> c[j].value != key || (!anyKind && c[j].kind != Scalar)
  }

  lemma FirstKeyExactly(c: seq<Tree>, key: string, anyKind: bool, r: nat)
    requires r + 1 < |c|
    ensures IsFirstKey(c, key, anyKind, r) <==> Find(c, key, anyKind) == r
  {
    if IsFirstKey(c, key, anyKind, r) { FindIs(c, key, anyKind, 0, r); }
  }

  /** Where the patched tree says what it is patched for: under the first http key a
      mapping, in it the flag as a true bool, and a list with the subnet. */
  lemma PatchedAsWritten(root: Tree, subnet: string) returns (i: nat, f: nat, k: nat, p: nat)
    requires WellPaired(root) && Usable(Section(root))
    ensures var t := Patched(root, subnet);
            && IsFirstKey(t.content, "http", false, i) && t.content[i + 1].kind == Mapping
            && var m := t.content[i + 1].content;
               && IsFirstKey(m, "use_x_forwarded_for", false, f)
               && m[f + 1].kind == Scalar && m[f + 1].tag == "!!bool" && m[f + 1].value == "true"
               && IsFirstKey(m, "trusted_proxies", true, k) && m[k + 1].kind == Sequence
               && p < |m[k + 1].content| && m[k + 1].content[p].kind == Scalar && m[k + 1].content[p].value == subnet
  {
    hide Find;
    hide Patched;
    PatchTrusts(root, subnet);
    var t := Patched(root, subnet);
    var m := Section(t);
    i := Find(t.content, "http", false);
    f, k := Find(m.content, FORWARDED, false), Find(m.content, PROXIES, true);
    p :| 0 <= p < |Proxies(m)| && Matches(Proxies(m)[p], subnet, false);
    FirstKeyExactly(t.content, "http", false, i);
    FirstKeyExactly(m.content, "use_x_forwarded_for", false, f);
    FirstKeyExactly(m.content, "trusted_proxies", true, k);
  }

  /** What is edited in place keeps its notes: a flag keeps even its children, and a list
      its tag and its elements, in front. */
  lemma EditedInPlace(m: Tree, subnet: string, f: nat, k: nat)
    requires Paired(m.content) && m.kind.Mapping?
    requires IsFirstKey(m.content, "use_x_forwarded_for", false, f)
    requires IsFirstKey(m.content, "trusted_proxies", true, k) && m.content[k + 1].kind == Sequence
    ensures var n := PatchedSection(m, subnet).content;
            && |n| == |m.content|
            && n[f + 1].notes == m.content[f + 1].notes && n[f + 1].content == m.content[f + 1].content
            && n[k + 1].notes == m.content[k + 1].notes && n[k + 1].tag == m.content[k + 1].tag
            && m.content[k + 1].content <= n[k + 1].content
  {
    FirstKeyExactly(m.content, "use_x_forwarded_for", false, f);
    FirstKeyExactly(m.content, "trusted_proxies", true, k);
    hide Find;
    FindKeepsOnValue(m.content, f, Scalarised(m.content[f + 1], "!!bool", "true"), PROXIES, true);
  }

  /** An empty mapping, patched. */
  lemma FirstPatch()
    ensures var flag, list := Tree(Scalar, "!!bool", "true", "", []), Tree(Scalar, "!!str", "10.0.0.0/24", "", []);
            var section := Tree(Mapping, "!!map", "", "",
                                [Tree(Scalar, "!!str", "use_x_forwarded_for", "", []), flag,
                                 Tree(Scalar, "!!str", "trusted_proxies", "", []),
                                 Tree(Sequence, "!!seq", "", "", [list])]);
            && WellPaired(Tree(Mapping, "!!map", "", "", []))
            && Patched(Tree(Mapping, "!!map", "", "", []), "10.0.0.0/24")
               == Tree(Mapping, "!!map", "", "", [Tree(Scalar, "!!str", "http", "", []), section])
  {
    var flag := Tree(Scalar, "!!bool", "true", "", []);
    var flagged := Tree(Mapping, "!!map", "", "", [Text("use_x_forwarded_for"), flag]);
    var list := Tree(Sequence, "!!seq", "", "", [Text("10.0.0.0/24")]);
    var section := Tree(Mapping, "!!map", "", "", [Text("use_x_forwarded_for"), flag, Text("trusted_proxies"), list]);
    FindIs([], "http", false, 0, 0);
    FindIs([], FORWARDED, false, 0, 0);
    FindIs(flagged.content, PROXIES, true, 0, 2);
    hide Find;
    NoneContained("10.0.0.0/24");
    assert WithScalar(EmptyMapping(), FORWARDED, "!!bool", "true") == flagged;
    assert Extended(Tree(Sequence, "!!seq", "", "", []), "10.0.0.0/24") == list;
    assert flagged.content + [Text(PROXIES), list] == section.content;
    assert WithProxy(flagged, "10.0.0.0/24") == section;
    assert [] + [Text("http"), section] == [Text("http"), section];
  }

  // ------------------------------------------------------------ all subnets

  /** updateHAConfigYAML: one patch after another. */
  function PatchedAll(root: Tree, subnets: seq<string>): (t: Tree)
    requires WellPaired(root)
    ensures WellPaired(t)
    decreases |subnets|
  {
    if subnets == [] then root
    else
      PatchTrusts(root, subnets[0]);
      PatchedAll(Patched(root, subnets[0]), subnets[1..])
  }

  lemma PatchKeepsSettled(root: Tree, subnet: string, other: string)
    requires WellPaired(root) && Settled(root, subnet)
    ensures WellPaired(Patched(root, other)) && Settled(Patched(root, other), subnet)
  {
    hide *;
    SettledIsUsable(root, subnet);
    PatchTrusts(root, other);
    ContainsAppended(Proxies(Section(root)), other, subnet);
    SettledIsUsable(Patched(root, other), subnet);
    assert Proxies(Section(root)) + [] == Proxies(Section(root));
  }

  lemma SettledIsUsable(root: Tree, subnet: string)
    requires WellPaired(root)
    ensures Settled(root, subnet) ==>
              HasSection(root) && Usable(Section(root)) && Contains(Proxies(Section(root)), subnet)
    ensures Settled(root, subnet) <==>
            HasSection(root) && Forwards(Section(root)) && Contains(Proxies(Section(root)), subnet)
  {
    NoneContained(subnet);
  }

  lemma {:induction false} AllKeepSettled(root: Tree, subnet: string, others: seq<string>)
    requires WellPaired(root) && Settled(root, subnet)
    ensures Settled(PatchedAll(root, others), subnet)
    decreases |others|
  {
    hide Find;
    if others != [] {
      PatchKeepsSettled(root, subnet, others[0]);
      AllKeepSettled(Patched(root, others[0]), subnet, others[1..]);
    }
  }

  /** After the loop every subnet is trusted, and the proxies that were there are
      still there, in front. */
  lemma {:induction false} LoopTrustsAll(root: Tree, subnets: seq<string>)
    requires WellPaired(root) && Usable(Section(root))
    ensures var t := PatchedAll(root, subnets);
            && (forall s :: s in subnets ==> Settled(t, s)) && Usable(Section(t))
            && Proxies(Section(root)) <= Proxies(Section(t))
    decreases |subnets|
  {
    hide Find;
    if subnets != [] {
      var t := Patched(root, subnets[0]);
      PatchTrusts(root, subnets[0]);
      LoopTrustsAll(t, subnets[1..]);
      AllKeepSettled(t, subnets[0], subnets[1..]);
    }
  }

  lemma {:induction false} SettledLoop(root: Tree, subnets: seq<string>)
    requires WellPaired(root) && forall s :: s in subnets ==> Settled(root, s)
    ensures PatchedAll(root, subnets) == root
    decreases |subnets|
  {
    hide Find;
    if subnets != [] {
      assert subnets[0] in subnets;
      UnchangedExactly(root, subnets[0]);
      SettledLoop(root, subnets[1..]);
    }
  }

  /** A second pass over all subnets changes nothing. */
  lemma LoopIsIdempotent(root: Tree, subnets: seq<string>)
    requires WellPaired(root) && Usable(Section(root))
    ensures PatchedAll(PatchedAll(root, subnets), subnets) == PatchedAll(root, subnets)
  {
    LoopTrustsAll(root, subnets);
    SettledLoop(PatchedAll(root, subnets), subnets);
  }
}
