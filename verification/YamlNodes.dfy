/** The nodes the YAML path edits in place, each edit proved against its effect on
    the tree they stand for (pkg/haaddon/config.go). */
module YamlNodes {
  import opened YamlTree

  class YamlNode {
    var kind: Kind
    var tag: string
    var value: string
    var notes: string
    var content: seq<YamlNode>
    ghost var Repr: set<YamlNode>

    /** This node and all below it form a tree, and t is its value. */
    ghost predicate Is(t: Tree)
      reads this, Repr
      ensures Is(t) ==> this in Repr && kind == t.kind && |content| == |t.content|
      decreases t
    {
      && this in Repr && kind == t.kind && tag == t.tag && value == t.value && notes == t.notes
      && |content| == |t.content|
      && (forall i :: 0 <= i < |content| ==>
            content[i] in Repr && content[i].Repr <= Repr && this !in content[i].Repr && content[i].Is(t.content[i]))
      && (forall i, j :: 0 <= i < j < |content| ==> content[i].Repr !! content[j].Repr)
    }

    constructor (kind: Kind, tag: string, value: string)
      ensures Is(Tree(kind, tag, value, "", [])) && Repr == {this}
    {
      this.kind, this.tag, this.value, notes, content, Repr := kind, tag, value, "", [], {this};
    }
  }

  /** The tree a node stands for is determined. */
  lemma {:induction false} OneTree(n: YamlNode, t: Tree, u: Tree)
    requires n.Is(t) && n.Is(u)
    ensures t == u
    decreases t
  {
    forall i | 0 <= i < |t.content| ensures t.content[i] == u.content[i] {
      OneTree(n.content[i], t.content[i], u.content[i]);
    }
  }

  /** The loop the helpers share: the first key that matches. */
  method FindKey(mapping: YamlNode, key: string, anyKind: bool, ghost t: Tree) returns (i: nat)
    requires mapping.Is(t)
    ensures i == Find(t.content, key, anyKind)
  {
    i := 0;
    while i < |mapping.content|
      invariant i % 2 == 0
      invariant forall j :: 0 <= j < i && j < |t.content| && j % 2 == 0 ==> !Matches(t.content[j], key, anyKind)
    {
      var k := mapping.content[i];
      if (anyKind || k.kind.Scalar?) && k.value == key {
        FindIs(t.content, key, anyKind, 0, i);
        return;
      }
      i := i + 2;
    }
    i := |mapping.content|;
    FindIs(t.content, key, anyKind, 0, i);
  }

  /** Two fresh nodes appended to a mapping. */
  method AppendPair(mapping: YamlNode, k: YamlNode, v: YamlNode, ghost t: Tree, ghost tk: Tree, ghost tv: Tree)
    requires mapping.Is(t) && k.Is(tk) && v.Is(tv) && k.Repr !! v.Repr && mapping.Repr !! k.Repr + v.Repr
    modifies mapping
    ensures mapping.Is(t.(content := t.content + [tk, tv])) && mapping.Repr == old(mapping.Repr) + k.Repr + v.Repr
    ensures mapping.content == old(mapping.content) + [k, v]
  {
    mapping.content := mapping.content + [k, v];
    mapping.Repr := mapping.Repr + k.Repr + v.Repr;
    assert mapping.Is(t.(content := t.content + [tk, tv])) by {
      assert forall i :: 0 <= i < |t.content| ==> mapping.content[i] == old(mapping.content)[i];
    }
  }

  /** A node without its i-th child: the other children, their nodes all in fp. */
  ghost predicate OthersAre(parent: YamlNode, t: Tree, i: nat, fp: set<YamlNode>)
    reads parent, fp
  {
    && parent in parent.Repr && parent !in fp && fp <= parent.Repr
    && |parent.content| == |t.content| && i < |t.content|
    && parent.kind == t.kind && parent.tag == t.tag && parent.value == t.value && parent.notes == t.notes
    && (forall j :: 0 <= j < |t.content| && j != i ==>
          parent.content[j] in fp && parent.content[j].Repr <= fp && parent.content[j].Is(t.content[j]))
    && (forall j, k :: 0 <= j < k < |t.content| && j != i && k != i ==>
          parent.content[j].Repr !! parent.content[k].Repr)
  }

  /** A child shares nothing with its parent and its siblings, so it can be edited
      or replaced without them noticing. */
  lemma Apart(parent: YamlNode, t: Tree, i: nat) returns (fp: set<YamlNode>)
    requires parent.Is(t) && i < |t.content|
    ensures OthersAre(parent, t, i, fp) && parent.content[i].Is(t.content[i])
    ensures var child := parent.content[i];
            child in child.Repr && child.Repr <= parent.Repr && parent !in child.Repr && fp !! child.Repr
  {
    fp := set j, n | 0 <= j < |t.content| && j != i && n in parent.content[j].Repr :: n;
    assert forall j :: 0 <= j < |t.content| && j != i ==> parent.content[j] in parent.content[j].Repr;
  }

  ghost method Adopt(parent: YamlNode, t: Tree, i: nat, child: Tree, fp: set<YamlNode>)
    requires OthersAre(parent, t, i, fp) && parent.content[i].Is(child)
    requires parent !in parent.content[i].Repr && fp !! parent.content[i].Repr
    modifies parent`Repr
    ensures parent.Is(t.(content := t.content[i := child]))
    ensures parent.Repr == old(parent.Repr) + parent.content[i].Repr
  {
    parent.Repr := parent.Repr + parent.content[i].Repr;
    assert parent.content[i] in parent.content[i].Repr;
  }

  method Overwrite(v: YamlNode, tag: string, value: string, ghost t: Tree)
    requires v.Is(t)
    modifies v`kind, v`tag, v`value
    ensures v.Is(Scalarised(t, tag, value)) && v.Repr == old(v.Repr)
  {
    v.kind, v.tag, v.value := Scalar, tag, value;
  }

  /** setScalarInMapping. */
  method SetScalar(mapping: YamlNode, key: string, tag: string, value: string, ghost t: Tree)
    requires mapping.Is(t) && Paired(t.content)
    modifies mapping.Repr
    ensures mapping.Is(WithScalar(t, key, tag, value)) && fresh(mapping.Repr - old(mapping.Repr))
  {
    hide YamlNode.Is;
    hide OthersAre;
    hide Find;
    var i := FindKey(mapping, key, false, t);
    if i < |mapping.content| {
      var v := mapping.content[i + 1];
      ghost var fp := Apart(mapping, t, i + 1);
      Overwrite(v, tag, value, t.content[i + 1]);
      Adopt(mapping, t, i + 1, Scalarised(t.content[i + 1], tag, value), fp);
    } else {
      var k := new YamlNode(Scalar, "!!str", key);
      var v := new YamlNode(Scalar, tag, value);
      AppendPair(mapping, k, v, t, Text(key), Tree(Scalar, tag, value, "", []));
    }
  }

  /** sequenceContains. */
  method SequenceContains(s: YamlNode, v: string, ghost t: Tree) returns (found: bool)
    requires s.Is(t)
    ensures found <==> Contains(t.content, v)
  {
    for i := 0 to |s.content|
      invariant forall j :: 0 <= j < i ==> !Matches(t.content[j], v, false)
    {
      if s.content[i].kind.Scalar? && s.content[i].value == v {
        assert Matches(t.content[i], v, false);
        return true;
      }
    }
    return false;
  }

  /** Where the sequence is, and the mapping that has it. */
  ghost function SequenceAt(t: Tree, key: string): (r: (nat, Tree))
    requires Paired(t.content)
    ensures r.0 < |r.1.content| && r.1.content[r.0].kind.Sequence?
  {
    var i := Find(t.content, key, true);
    if i < |t.content| && t.content[i + 1].kind.Sequence? then (i + 1, t)
    else (|t.content| + 1, t.(content := t.content + [Text(key), Tree(Sequence, "!!seq", "", "", [])]))
  }

  /** ensureSequenceInMapping: the sequence under the key, created behind everything
      else when the key is missing or holds something else. */
  method EnsureSequence(mapping: YamlNode, key: string, ghost t: Tree) returns (s: YamlNode)
    requires mapping.Is(t) && Paired(t.content)
    modifies mapping
    ensures SequenceAt(t, key).0 < |mapping.content| && s == mapping.content[SequenceAt(t, key).0]
    ensures mapping.Is(SequenceAt(t, key).1) && fresh(mapping.Repr - old(mapping.Repr))
  {
    hide YamlNode.Is;
    hide Find;
    var i := FindKey(mapping, key, true, t);
    if i < |mapping.content| {
      ghost var _ := Apart(mapping, t, i + 1);
      if mapping.content[i + 1].kind.Sequence? { return mapping.content[i + 1]; }
    }
    var k := new YamlNode(Scalar, "!!str", key);
    s := new YamlNode(Sequence, "!!seq", "");
    AppendPair(mapping, k, s, t, Text(key), Tree(Sequence, "!!seq", "", "", []));
  }

  /** The proxy appended to the sequence, unless it is there. */
  method AppendOnce(s: YamlNode, v: string, ghost t: Tree)
    requires s.Is(t)
    modifies s
    ensures s.Is(Extended(t, v)) && fresh(s.Repr - old(s.Repr))
  {
    var found := SequenceContains(s, v, t);
    if !found {
      var n := new YamlNode(Scalar, "!!str", v);
      s.content := s.content + [n];
      s.Repr := s.Repr + {n};
    }
  }

  /** The two steps of the patch that deal with trusted_proxies. */
  method AddProxy(mapping: YamlNode, subnet: string, ghost t: Tree)
    requires mapping.Is(t) && Paired(t.content)
    modifies mapping.Repr
    ensures mapping.Is(WithProxy(t, subnet)) && fresh(mapping.Repr - old(mapping.Repr))
  {
    hide YamlNode.Is;
    hide OthersAre;
    hide Find;
    hide Extended;
    var s := EnsureSequence(mapping, PROXIES, t);
    ghost var at, with := SequenceAt(t, PROXIES).0, SequenceAt(t, PROXIES).1;
    ghost var fp := Apart(mapping, with, at);
    AppendOnce(s, subnet, with.content[at]);
    Adopt(mapping, with, at, Extended(with.content[at], subnet), fp);
    assert with.(content := with.content[at := Extended(with.content[at], subnet)]) == WithProxy(t, subnet);
  }

  lemma KeysDiffer(parent: YamlNode, t: Tree, i: nat, j: nat)
    requires parent.Is(t) && i <= j < |t.content|
    ensures parent.content[i] == parent.content[j] <==> i == j
  {
    assert i < j ==> parent.content[i].Repr !! parent.content[j].Repr && parent.content[i] in parent.content[i].Repr;
  }

  /** replaceValueNode: the value of the pair whose key is this very node. */
  method ReplaceValueNode(mapping: YamlNode, key: YamlNode, newVal: YamlNode, ghost at: nat, ghost t: Tree,
                          ghost child: Tree)
    requires mapping.Is(t)
    requires at % 2 == 0 && at + 1 < |t.content| && mapping.content[at] == key
    requires newVal.Is(child) && newVal.Repr !! mapping.Repr
    modifies mapping
    ensures mapping.content == old(mapping.content)[at + 1 := newVal]
    ensures mapping.Is(t.(content := t.content[at + 1 := child])) && mapping.Repr == old(mapping.Repr) + newVal.Repr
  {
    var i := 0;
    while i < |mapping.content|
      invariant i % 2 == 0 && i <= at
    {
      if mapping.content[i] == key {
        KeysDiffer(mapping, t, i, at);
        ghost var fp := Apart(mapping, t, i + 1);
        mapping.content := mapping.content[i + 1 := newVal];
        Adopt(mapping, t, i + 1, child, fp);
        return;
      }
      i := i + 2;
    }
  }

  /** Where the value of http is, or will be. */
  ghost function SectionAt(t: Tree): nat {
    Find(t.content, "http", false) + 1
  }

  /** The first part of patchHTTPSection: find the http mapping, or create it. Null
      stands for the panic on a key without a value. */
  method FindSection(root: YamlNode, ghost t: Tree) returns (httpVal: YamlNode?)
    requires root.Is(t) && PairedSection(t)
    modifies root
    ensures httpVal == null <==> Dangling(t)
    ensures httpVal == null ==> root.Is(t) && root.Repr == old(root.Repr)
    ensures httpVal != null ==>
              && root.Is(WithSection(t, Section(t))) && fresh(root.Repr - old(root.Repr))
              && SectionAt(t) < |root.content| && httpVal == root.content[SectionAt(t)]
  {
    hide YamlNode.Is;
    hide Find;
    var i := FindKey(root, "http", false, t);
    if i == |root.content| {
      var httpKey := new YamlNode(Scalar, "!!str", "http");
      httpVal := new YamlNode(Mapping, "!!map", "");
      AppendPair(root, httpKey, httpVal, t, Text("http"), EmptyMapping());
      return;
    }
    if i + 1 == |root.content| { return null; }
    httpVal := root.content[i + 1];
    ghost var _ := Apart(root, t, i + 1);
    if !httpVal.kind.Mapping? {
      var httpKey := root.content[i];
      httpVal := new YamlNode(Mapping, "!!map", "");
      ReplaceValueNode(root, httpKey, httpVal, i, t, EmptyMapping());
    } else {
      assert t.content[i + 1 := t.content[i + 1]] == t.content;
    }
  }

  method PatchSection(httpVal: YamlNode, subnet: string, ghost t: Tree)
    requires httpVal.Is(t) && Paired(t.content) && t.kind.Mapping?
    modifies httpVal.Repr
    ensures httpVal.Is(PatchedSection(t, subnet)) && fresh(httpVal.Repr - old(httpVal.Repr))
  {
    hide WithScalar;
    hide WithProxy;
    SetScalar(httpVal, FORWARDED, "!!bool", "true", t);
    ScalarForwards(t);
    AddProxy(httpVal, subnet, WithScalar(t, FORWARDED, "!!bool", "true"));
  }

  /** patchHTTPSection on the root: the nodes end up as the patched tree. */
  method PatchRoot(root: YamlNode, subnet: string, ghost t: Tree) returns (ok: bool)
    requires root.Is(t) && PairedSection(t)
    modifies root.Repr
    ensures ok <==> !Dangling(t)
    ensures root.Is(if ok then Patched(t, subnet) else t) && fresh(root.Repr - old(root.Repr))
  {
    hide Find;
    hide PatchedSection;
    hide YamlNode.Is;
    hide OthersAre;
    var httpVal := FindSection(root, t);
    if httpVal == null { return false; }
    ghost var m, found := Section(t), WithSection(t, Section(t));
    SectionFound(t);
    ghost var fp := Apart(root, found, SectionAt(t));
    PatchSection(httpVal, subnet, m);
    Adopt(root, found, SectionAt(t), PatchedSection(m, subnet), fp);
    SectionReplaced(t, PatchedSection(m, subnet));
    return true;
  }

  lemma SectionFound(t: Tree)
    requires Patchable(t)
    ensures var found := WithSection(t, Section(t));
            SectionAt(t) < |found.content| && found.content[SectionAt(t)] == Section(t)
  {
    hide Find;
  }

  lemma SectionReplaced(t: Tree, m: Tree)
    requires Patchable(t)
    ensures var found := WithSection(t, Section(t));
            && SectionAt(t) < |found.content|
            && found.(content := found.content[SectionAt(t) := m]) == WithSection(t, m)
  {
    hide Find;
  }

  /** patchHTTPSection: anything but a document with content is an error, and left
      alone. */
  method PatchDocument(doc: YamlNode, subnet: string, ghost t: Tree) returns (outcome: Outcome)
    requires doc.Is(t) && (t.kind.Document? && t.content != [] ==> PairedSection(t.content[0]))
    modifies doc.Repr
    ensures outcome.Failed? <==> !(t.kind.Document? && t.content != [])
    ensures outcome.Panicked? <==> t.kind.Document? && t.content != [] && Dangling(t.content[0])
    ensures doc.Is(if outcome.Done? then t.(content := t.content[0 := Patched(t.content[0], subnet)]) else t)
    ensures fresh(doc.Repr - old(doc.Repr))
  {
    hide YamlNode.Is;
    hide OthersAre;
    hide Patched;
    hide Find;
    if !doc.kind.Document? || |doc.content| == 0 { return Failed; }
    ghost var fp := Apart(doc, t, 0);
    var ok := PatchRoot(doc.content[0], subnet, t.content[0]);
    if !ok {
      Adopt(doc, t, 0, t.content[0], fp);
      assert t.content[0 := t.content[0]] == t.content;
      return Panicked;
    }
    Adopt(doc, t, 0, Patched(t.content[0], subnet), fp);
    return Done;
  }
}
