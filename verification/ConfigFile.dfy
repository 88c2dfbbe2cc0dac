/** configuration.yaml as a file: read, patched, set off with blank lines, and
    written only if that changed it (pkg/haaddon/config.go). */
module ConfigFile {
  import opened Strings
  import opened YamlTree
  import opened BlankLines

  /** The YAML library. */
  datatype Codec = Codec(decode: string -> Option<Tree>, encode: Tree -> string)

  predicate IsDocument(doc: Tree) {
    doc.kind.Document? && doc.content != []
  }

  function WithRoot(doc: Tree, root: Tree): Tree
    requires IsDocument(doc)
  {
    doc.(content := doc.content[0 := root])
  }

  /** Mappings are read in pairs. */
  ghost predicate ReadsPairs(c: Codec) {
    forall text :: c.decode(text).Some? && IsDocument(c.decode(text).value) ==>
      PairedSection(c.decode(text).value.content[0])
  }

  // ------------------------------------------------------------- one update

  datatype Update = To(text: string) | Error | Panic

  /** What the file becomes, unless it cannot be patched. */
  ghost function Ensured(c: Codec, text: string, subnet: string): Update
    requires ReadsPairs(c)
  {
    var doc := c.decode(text);
    if doc.None? || !IsDocument(doc.value) then Error
    else if Dangling(doc.value.content[0]) then Panic
    else To(Spaced(c.encode(Written(doc.value, subnet)), "http"))
  }

  function Written(doc: Tree, subnet: string): Tree
    requires IsDocument(doc) && Patchable(doc.content[0])
  {
    WithRoot(doc, Patched(doc.content[0], subnet))
  }

  /** updateHAConfigYAML: an error is logged and the next subnet tried; a panic ends
      the program. */
  ghost function Updated(c: Codec, text: string, subnets: seq<string>): string
    requires ReadsPairs(c)
    decreases |subnets|
  {
    if subnets == [] then text
    else
      match Ensured(c, text, subnets[0])
      case To(next) => Updated(c, next, subnets[1..])
      case Error => Updated(c, text, subnets[1..])
      case Panic => text
  }

  /** Updating the file for any of the subnets leaves it as it is. */
  ghost predicate Fixed(c: Codec, text: string, subnets: seq<string>)
    requires ReadsPairs(c)
  {
    forall s :: s in subnets ==> Ensured(c, text, s) == To(text)
  }

  // -------------------------------------------------- a tree and its reading

  /** u is t as it may be read back: of the same shape, kinds and values. Quotes that
      the encoder had to add, or found, show in tags and notes; and what hangs below a
      scalar is not written. */
  predicate Alike(u: Tree, t: Tree)
    decreases t
  {
    && u.kind == t.kind && u.value == t.value
    && if t.kind.Scalar? then u.content == [] else
         |u.content| == |t.content| && forall i :: 0 <= i < |t.content| ==> Alike(u.content[i], t.content[i])
  }

  /** w is u with some of the tags of t. */
  predicate Retagged(w: Tree, u: Tree, t: Tree)
    decreases t
  {
    && w.kind == u.kind && w.value == u.value && w.notes == u.notes && (w.tag == u.tag || w.tag == t.tag)
    && if t.kind.Scalar? then w.content == u.content else
         && |w.content| == |u.content| == |t.content|
         && forall i :: 0 <= i < |t.content| ==> Retagged(w.content[i], u.content[i], t.content[i])
  }

  /** What the theorems ask of the library, of the trees that are written and no
      others: read back, the tree is alike, and encoding it again, under its new tags or
      those it was written with, gives the same text. */
  ghost predicate ReadsBack(c: Codec, t: Tree) {
    var u := c.decode(Spaced(c.encode(t), "http"));
    u.Some? && Alike(u.value, t) && forall w :: Retagged(w, u.value, t) ==> c.encode(w) == c.encode(t)
  }

  /** A library that takes no notice of blank lines need only read back its own text. */
  lemma BlankLinesDoNoHarm(c: Codec, t: Tree)
    requires forall text :: Visible(LinesOf(text)) == Visible(LinesOf(c.encode(t))) ==>
               c.decode(text) == c.decode(c.encode(t))
    requires c.decode(c.encode(t)).Some? && Alike(c.decode(c.encode(t)).value, t)
    requires forall w :: Retagged(w, c.decode(c.encode(t)).value, t) ==> c.encode(w) == c.encode(t)
    ensures ReadsBack(c, t)
  {
    InsertsOnlyBlanks(c.encode(t), "http");
  }

  lemma FindAlike(c: seq<Tree>, d: seq<Tree>, key: string, anyKind: bool)
    requires |c| == |d| && forall i :: 0 <= i < |d| ==> Alike(c[i], d[i])
    ensures Find(c, key, anyKind) == Find(d, key, anyKind)
  {
    FindIs(c, key, anyKind, 0, Find(d, key, anyKind));
  }

  lemma AlikeParts(u: Tree, t: Tree)
    ensures Alike(u, t) <==>
            && u.kind == t.kind && u.value == t.value
            && if t.kind.Scalar? then u.content == [] else
                 |u.content| == |t.content| && forall i :: 0 <= i < |t.content| ==> Alike(u.content[i], t.content[i])
  {
  }

  predicate FlagOn(m: Tree)
    requires Paired(m.content)
  {
    var f := Find(m.content, FORWARDED, false);
    f < |m.content| && m.content[f + 1].kind.Scalar? && m.content[f + 1].value == "true"
  }

  /** Forwarding is on, however the flag is quoted, and the subnet is listed. */
  predicate Effective(root: Tree, subnet: string)
    requires Patchable(root)
  {
    HasSection(root) && FlagOn(Section(root)) && Contains(Proxies(Section(root)), subnet)
  }

  /** Where a reader finds what is effective: the first http key with a mapping, in it the
      flag with the value true, and a list with the subnet. */
  lemma EffectiveAsWritten(root: Tree, subnet: string) returns (i: nat, f: nat, k: nat, p: nat)
    requires Patchable(root) && Effective(root, subnet)
    ensures IsFirstKey(root.content, "http", false, i) && root.content[i + 1].kind == Mapping
    ensures var m := root.content[i + 1].content;
            && IsFirstKey(m, "use_x_forwarded_for", false, f)
            && m[f + 1].kind == Scalar && m[f + 1].value == "true"
            && IsFirstKey(m, "trusted_proxies", true, k) && m[k + 1].kind == Sequence
            && p < |m[k + 1].content| && m[k + 1].content[p].kind == Scalar && m[k + 1].content[p].value == subnet
  {
    NoneContained(subnet);
    hide Find;
    var m := Section(root);
    i := Find(root.content, "http", false);
    f, k := Find(m.content, FORWARDED, false), Find(m.content, PROXIES, true);
    p :| 0 <= p < |Proxies(m)| && Matches(Proxies(m)[p], subnet, false);
    FirstKeyExactly(root.content, "http", false, i);
    FirstKeyExactly(m.content, "use_x_forwarded_for", false, f);
    FirstKeyExactly(m.content, "trusted_proxies", true, k);
  }

  lemma ContainsAlike(c: seq<Tree>, d: seq<Tree>, v: string)
    requires |c| == |d| && (forall i :: 0 <= i < |d| ==> Alike(c[i], d[i])) && Contains(d, v)
    ensures Contains(c, v)
  {
    var i :| 0 <= i < |d| && Matches(d[i], v, false);
    assert Matches(c[i], v, false);
  }

  lemma FlagAlike(m: Tree, n: Tree)
    requires Alike(m, n) && n.kind.Mapping? && Paired(n.content)
    ensures Paired(m.content) && (FlagOn(n) ==> FlagOn(m))
  {
    hide Find;
    hide Alike;
    AlikeParts(m, n);
    FindAlike(m.content, n.content, FORWARDED, false);
    if FlagOn(n) {
      var f := Find(n.content, FORWARDED, false) + 1;
      AlikeParts(m.content[f], n.content[f]);
    }
  }

  lemma ProxiesAlike(m: Tree, n: Tree, subnet: string)
    requires Alike(m, n) && n.kind.Mapping? && Paired(n.content)
    ensures Paired(m.content) && (Usable(n) ==> Usable(m))
    ensures Contains(Proxies(n), subnet) ==> Contains(Proxies(m), subnet)
  {
    hide Find;
    hide Alike;
    hide Contains;
    AlikeParts(m, n);
    FindAlike(m.content, n.content, PROXIES, true);
    NoneContained(subnet);
    var k := Find(n.content, PROXIES, true) + 1;
    if k < |n.content| {
      AlikeParts(m.content[k], n.content[k]);
      if Contains(Proxies(n), subnet) { ContainsAlike(m.content[k].content, n.content[k].content, subnet); }
    }
  }

  lemma SectionAlike(u: Tree, t: Tree)
    requires Alike(u, t) && t.kind.Mapping? && Patchable(t)
    ensures Patchable(u) && (WellPaired(t) ==> WellPaired(u))
    ensures HasSection(t) ==> HasSection(u) && Alike(Section(u), Section(t))
  {
    hide Find;
    hide Alike;
    AlikeParts(u, t);
    FindAlike(u.content, t.content, "http", false);
    var i := Find(t.content, "http", false) + 1;
    if i < |t.content| { AlikeParts(u.content[i], t.content[i]); }
  }

  /** What is written trusts the subnet also when it is read back. */
  lemma EffectiveWhenRead(u: Tree, t: Tree, subnet: string)
    requires Alike(u, t) && t.kind.Mapping? && WellPaired(t) && Settled(t, subnet)
    ensures WellPaired(u) && Effective(u, subnet) && Usable(Section(u))
  {
    hide *;
    SettledIsUsable(t, subnet);
    SectionAlike(u, t);
    SettledIsFlagged(t, subnet);
    FlagAlike(Section(u), Section(t));
    ProxiesAlike(Section(u), Section(t), subnet);
    EffectiveIs(u, subnet);
  }

  lemma SettledIsFlagged(t: Tree, subnet: string)
    requires Patchable(t) && Settled(t, subnet)
    ensures FlagOn(Section(t)) && Section(t).kind.Mapping? && Paired(Section(t).content)
  {
  }

  lemma EffectiveIs(u: Tree, subnet: string)
    requires Patchable(u)
    ensures Effective(u, subnet) <==> HasSection(u) && FlagOn(Section(u)) && Contains(Proxies(Section(u)), subnet)
    ensures Effective(u, subnet) ==> Usable(Section(u))
  {
    NoneContained(subnet);
  }

  /** A patch leaves every subnet trusted that was. */
  lemma PatchKeepsEffective(root: Tree, subnet: string, other: string)
    requires WellPaired(root) && Effective(root, other)
    ensures WellPaired(Patched(root, subnet)) && Settled(Patched(root, subnet), other)
  {
    hide *;
    EffectiveIs(root, other);
    PatchTrusts(root, subnet);
    ContainsAppended(Proxies(Section(root)), subnet, other);
    SettledIsUsable(Patched(root, subnet), other);
    assert Proxies(Section(root)) + [] == Proxies(Section(root));
  }

  // --------------------------------------------------------- patching again

  lemma {:induction false} RetaggedSelf(u: Tree, t: Tree)
    requires Alike(u, t)
    ensures Retagged(u, u, t)
    decreases t
  {
    if !t.kind.Scalar? {
      forall i | 0 <= i < |t.content| ensures Retagged(u.content[i], u.content[i], t.content[i]) {
        RetaggedSelf(u.content[i], t.content[i]);
      }
    }
  }

  /** One child may be retagged and the others left alone. */
  lemma RetaggedChild(u: Tree, t: Tree, i: nat, w: Tree)
    requires Alike(u, t) && !t.kind.Scalar? && i < |t.content| && Retagged(w, u.content[i], t.content[i])
    ensures Retagged(u.(content := u.content[i := w]), u, t)
  {
    forall k | 0 <= k < |t.content| ensures Retagged(u.content[i := w][k], u.content[k], t.content[k]) {
      RetaggedSelf(u.content[k], t.content[k]);
    }
  }

  /** Patching the section again does no more than give the flag its tag back. */
  lemma SectionAgain(m: Tree, n: Tree, subnet: string)
    requires Alike(m, n) && n.kind.Mapping? && Paired(n.content) && Forwards(n) && Paired(m.content)
    requires Contains(Proxies(m), subnet)
    ensures Retagged(PatchedSection(m, subnet), m, n)
  {
    hide Find;
    hide Contains;
    hide Alike;
    hide Retagged;
    FlagAgain(m, n);
    ScalarKeepsProxies(m);
    ProxyFacts(WithScalar(m, FORWARDED, "!!bool", "true"), subnet);
  }

  lemma FlagAgain(m: Tree, n: Tree)
    requires Alike(m, n) && n.kind.Mapping? && Paired(n.content) && Forwards(n) && Paired(m.content)
    ensures Retagged(WithScalar(m, FORWARDED, "!!bool", "true"), m, n)
    ensures WithScalar(m, FORWARDED, "!!bool", "true").kind.Mapping?
  {
    hide Find;
    hide Alike;
    hide Retagged;
    AlikeParts(m, n);
    FindAlike(m.content, n.content, FORWARDED, false);
    var f := Find(n.content, FORWARDED, false) + 1;
    AlikeParts(m.content[f], n.content[f]);
    ScalarRetagged(m.content[f], n.content[f]);
    RetaggedChild(m, n, f, Scalarised(m.content[f], "!!bool", "true"));
  }

  lemma ScalarRetagged(u: Tree, t: Tree)
    requires u.kind.Scalar? && t.kind.Scalar? && u.value == "true" && t.tag == "!!bool"
    ensures Retagged(Scalarised(u, "!!bool", "true"), u, t)
  {
  }

  lemma RootAgain(u: Tree, t: Tree, subnet: string)
    requires Alike(u, t) && t.kind.Mapping? && WellPaired(t) && Settled(t, subnet)
    ensures WellPaired(u) && Retagged(Patched(u, subnet), u, t)
  {
    hide Find;
    hide Contains;
    hide Alike;
    hide Retagged;
    hide PatchedSection;
    EffectiveWhenRead(u, t, subnet);
    SectionAlike(u, t);
    AlikeParts(u, t);
    AlikeParts(Section(u), Section(t));
    FindAlike(u.content, t.content, "http", false);
    SectionAgain(Section(u), Section(t), subnet);
    RetaggedChild(u, t, Find(t.content, "http", false) + 1, PatchedSection(Section(u), subnet));
  }

  // --------------------------------------------------------------- the file

  /** The file can be patched: its root is a mapping, and trusted_proxies, where
      present in the http mapping, is a sequence. */
  predicate Ready(doc: Tree)
    ensures Ready(doc) ==> IsDocument(doc) && WellPaired(doc.content[0])
  {
    IsDocument(doc) && doc.content[0].kind.Mapping? && WellPaired(doc.content[0]) && Usable(Section(doc.content[0]))
  }

  predicate ReadyFile(c: Codec, text: string) {
    c.decode(text).Some? && Ready(c.decode(text).value)
  }

  /** The document a run reads from a file that can be patched. */
  function RootOf(c: Codec, text: string): (root: Tree)
    requires ReadyFile(c, text)
    ensures WellPaired(root)
  {
    c.decode(text).value.content[0]
  }

  lemma WrittenIsReady(doc: Tree, subnet: string)
    requires Ready(doc)
    ensures Ready(Written(doc, subnet)) && Settled(Written(doc, subnet).content[0], subnet)
    ensures forall o :: Effective(doc.content[0], o) ==> Settled(Written(doc, subnet).content[0], o)
  {
    hide Patched;
    hide Settled;
    hide Effective;
    hide Usable;
    hide Section;
    PatchTrusts(doc.content[0], subnet);
    PatchKeepsKind(doc.content[0], subnet);
    forall o | Effective(doc.content[0], o) ensures Settled(Written(doc, subnet).content[0], o) {
      PatchKeepsEffective(doc.content[0], subnet, o);
    }
  }

  lemma PatchKeepsKind(root: Tree, subnet: string)
    requires Patchable(root)
    ensures Patched(root, subnet).kind == root.kind
  {
    hide PatchedSection;
    hide Find;
  }

  /** A written tree, read back, is ready again and trusts the same subnets. */
  lemma ReadBackIsReady(c: Codec, t: Tree, subnet: string)
    requires ReadsBack(c, t) && Ready(t) && Settled(t.content[0], subnet)
    ensures var text := Spaced(c.encode(t), "http"); ReadyFile(c, text) && Effective(RootOf(c, text), subnet)
  {
    hide Settled;
    hide Effective;
    hide Section;
    hide Usable;
    hide Spaced;
    var u := c.decode(Spaced(c.encode(t), "http")).value;
    EffectiveWhenRead(u.content[0], t.content[0], subnet);
  }

  /** Updating a written file once more for a subnet it trusts changes nothing. */
  lemma WrittenIsFixed(c: Codec, t: Tree, subnet: string)
    requires ReadsPairs(c) && ReadsBack(c, t) && Ready(t) && Settled(t.content[0], subnet)
    ensures Ensured(c, Spaced(c.encode(t), "http"), subnet) == To(Spaced(c.encode(t), "http"))
  {
    hide ReadsPairs;
    hide Settled;
    hide Section;
    hide Usable;
    hide Spaced;
    hide Patched;
    var u := c.decode(Spaced(c.encode(t), "http")).value;
    RootAgain(u.content[0], t.content[0], subnet);
    RetaggedChild(u, t, 0, Patched(u.content[0], subnet));
  }

  /** Every tree the run writes is read back. */
  ghost predicate RunReadsBack(c: Codec, text: string, subnets: seq<string>)
    decreases |subnets|
  {
    subnets == [] || (ReadyFile(c, text) ==>
      var t := Written(c.decode(text).value, subnets[0]);
      ReadsBack(c, t) && RunReadsBack(c, Spaced(c.encode(t), "http"), subnets[1..]))
  }

  /** What the file holds when the run is over. */
  lemma {:induction false} RunEnds(c: Codec, text: string, subnets: seq<string>) returns (t: Tree)
    requires ReadsPairs(c) && ReadyFile(c, text) && RunReadsBack(c, text, subnets) && subnets != []
    ensures Updated(c, text, subnets) == Spaced(c.encode(t), "http") && ReadsBack(c, t) && Ready(t)
    ensures forall s :: s in subnets || Effective(RootOf(c, text), s) ==> Settled(t.content[0], s)
    decreases |subnets|
  {
    hide ReadsPairs;
    hide ReadsBack;
    hide Ready;
    hide Settled;
    hide Effective;
    hide Spaced;
    hide Written;
    var first, rest := subnets[0], subnets[1..];
    var doc := c.decode(text).value;
    t := Written(doc, first);
    var next := Spaced(c.encode(t), "http");
    WrittenIsReady(doc, first);
    UpdatedFirst(c, text, subnets);
    if rest != [] {
      var one := t;
      forall s | Settled(one.content[0], s) ensures ReadyFile(c, next) && Effective(RootOf(c, next), s) {
        ReadBackIsReady(c, one, s);
      }
      assert Settled(one.content[0], first);
      t := RunEnds(c, next, rest);
    }
    assert forall s :: s in subnets ==> s == first || s in rest;
  }

  lemma UpdatedFirst(c: Codec, text: string, subnets: seq<string>)
    requires ReadsPairs(c) && ReadyFile(c, text) && subnets != []
    ensures var next := Spaced(c.encode(Written(c.decode(text).value, subnets[0])), "http");
            Updated(c, text, subnets) == Updated(c, next, subnets[1..])
  {
    hide Spaced;
    hide Patched;
  }

  /** After the program has updated the file, it trusts every subnet, and running again
      writes nothing. */
  lemma SecondRunWritesNothing(c: Codec, text: string, subnets: seq<string>)
    requires ReadsPairs(c) && ReadyFile(c, text) && RunReadsBack(c, text, subnets)
    ensures var f := Updated(c, text, subnets);
            Fixed(c, f, subnets) && ReadyFile(c, f) && forall s :: s in subnets ==> Effective(RootOf(c, f), s)
  {
    hide ReadsPairs;
    hide ReadsBack;
    hide Ready;
    hide Settled;
    hide Effective;
    hide Spaced;
    hide Ensured;
    if subnets != [] {
      var t := RunEnds(c, text, subnets);
      forall s | s in subnets
        ensures Ensured(c, Updated(c, text, subnets), s) == To(Updated(c, text, subnets))
        ensures ReadyFile(c, Updated(c, text, subnets)) && Effective(RootOf(c, Updated(c, text, subnets)), s)
      {
        WrittenIsFixed(c, t, s);
        ReadBackIsReady(c, t, s);
      }
      assert subnets[0] in subnets;
    }
  }

  class File {
    var text: string
    var writes: nat

    /** ensureTrustedProxySubnet: written only when that changes something. */
    method EnsureTrustedProxySubnet(c: Codec, subnet: string) returns (outcome: Outcome)
      requires ReadsPairs(c)
      modifies this
      ensures var after := Ensured(c, old(text), subnet);
              && outcome == (match after case To(_) => Done case Error => Failed case Panic => Panicked)
              && text == (if after.To? then after.text else old(text))
      ensures writes == if text == old(text) then old(writes) else old(writes) + 1
      ensures var doc := c.decode(old(text));
              outcome.Failed? <==> doc.None? || doc.value.kind != Document || doc.value.content == []
      ensures !outcome.Done? ==> text == old(text)
    {
      var doc := c.decode(text);
      if doc.None? || !doc.value.kind.Document? || |doc.value.content| == 0 { return Failed; }
      if Dangling(doc.value.content[0]) { return Panicked; }
      var updated := c.encode(Written(doc.value, subnet));
      var beautified := AddBlankAroundSection(updated, "http");
      if beautified != text {
        text := beautified;
        writes := writes + 1;
      }
      return Done;
    }

    method UpdateHAConfigYAML(c: Codec, subnets: seq<string>)
      requires ReadsPairs(c)
      modifies this
      ensures text == Updated(c, old(text), subnets)
      ensures Fixed(c, old(text), subnets) ==> text == old(text) && writes == old(writes)
    {
      hide ReadsPairs;
      hide Ensured;
      for k := 0 to |subnets|
        invariant Updated(c, text, subnets[k..]) == Updated(c, old(text), subnets)
        invariant Fixed(c, old(text), subnets) ==> text == old(text) && writes == old(writes)
      {
        assert subnets[k..][1..] == subnets[k + 1..] && subnets[k] in subnets;
        var outcome := EnsureTrustedProxySubnet(c, subnets[k]);
        if outcome.Panicked? { return; }
      }
    }
  }
}
