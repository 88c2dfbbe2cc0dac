/** What ConfigFile asks of the YAML library can be met by a library that, like the
    real one, writes a document and its root alike, does not write what hangs below a
    scalar, and takes no notice of blank lines. */
module CodecLaws {
  import opened Strings
  import opened YamlTree
  import opened BlankLines
  import opened ConfigFile

  // Each piece says where it ends, so pieces can be put side by side.

  function Number(n: nat): string { if n == 0 then "0" else "1" + Number(n - 1) }

  function Word(s: string): string {
    if s == "" then "0" else "1" + Number(s[0] as nat) + Word(s[1..])
  }

  function KindNumber(k: Kind): nat {
    match k
    case Nothing => 0
    case Document => 1
    case Mapping => 2
    case Sequence => 3
    case Scalar => 4
    case Alias => 5
  }

  function Flat(t: Tree): string
    decreases t, 0
  {
    Number(KindNumber(t.kind)) + Word(t.tag) + Word(t.value) + Word(t.notes) + FlatAll(t.content)
  }

  function FlatAll(c: seq<Tree>): string
    decreases c
  {
    if c == [] then "0" else "1" + Flat(c[0]) + FlatAll(c[1..])
  }

  lemma {:induction false} NumberEnds(m: nat, n: nat, x: string, y: string)
    requires Number(m) + x == Number(n) + y
    ensures m == n && x == y
  {
    var s := Number(m) + x;
    assert m == 0 ==> s[0] == '0' && s[1..] == x;
    assert n == 0 ==> s[0] == '0' && s[1..] == y;
    assert m > 0 ==> s[0] == '1' && s[1..] == Number(m - 1) + x;
    assert n > 0 ==> s[0] == '1' && s[1..] == Number(n - 1) + y;
    if m > 0 && n > 0 { NumberEnds(m - 1, n - 1, x, y); }
  }

  lemma {:induction false} WordEnds(a: string, b: string, x: string, y: string)
    requires Word(a) + x == Word(b) + y
    ensures a == b && x == y
  {
    hide Number;
    var s := Word(a) + x;
    assert a == "" ==> s[0] == '0' && s[1..] == x;
    assert b == "" ==> s[0] == '0' && s[1..] == y;
    assert a != "" ==> s[0] == '1' && s[1..] == Number(a[0] as nat) + (Word(a[1..]) + x);
    assert b != "" ==> s[0] == '1' && s[1..] == Number(b[0] as nat) + (Word(b[1..]) + y);
    if a != "" && b != "" {
      NumberEnds(a[0] as nat, b[0] as nat, Word(a[1..]) + x, Word(b[1..]) + y);
      WordEnds(a[1..], b[1..], x, y);
      assert a == [a[0]] + a[1..] && b == [b[0]] + b[1..];
    }
  }

  lemma FlatParts(t: Tree, x: string)
    ensures Flat(t) + x
         == Number(KindNumber(t.kind)) + (Word(t.tag) + (Word(t.value) + (Word(t.notes) + (FlatAll(t.content) + x))))
  {
    hide Number;
    hide Word;
    hide FlatAll;
  }

  lemma {:induction false} FlatEnds(a: Tree, b: Tree, x: string, y: string)
    requires Flat(a) + x == Flat(b) + y
    ensures a == b && x == y
    decreases a, 0
  {
    hide Number;
    hide Word;
    hide FlatAll;
    FlatParts(a, x);
    FlatParts(b, y);
    var a4, b4 := FlatAll(a.content) + x, FlatAll(b.content) + y;
    var a3, b3 := Word(a.notes) + a4, Word(b.notes) + b4;
    var a2, b2 := Word(a.value) + a3, Word(b.value) + b3;
    NumberEnds(KindNumber(a.kind), KindNumber(b.kind), Word(a.tag) + a2, Word(b.tag) + b2);
    WordEnds(a.tag, b.tag, a2, b2);
    WordEnds(a.value, b.value, a3, b3);
    WordEnds(a.notes, b.notes, a4, b4);
    FlatAllEnds(a.content, b.content, x, y);
  }

  lemma {:induction false} FlatAllEnds(a: seq<Tree>, b: seq<Tree>, x: string, y: string)
    requires FlatAll(a) + x == FlatAll(b) + y
    ensures a == b && x == y
    decreases a
  {
    hide Flat;
    var s := FlatAll(a) + x;
    assert a == [] ==> s[0] == '0' && s[1..] == x;
    assert b == [] ==> s[0] == '0' && s[1..] == y;
    assert a != [] ==> s[0] == '1' && s[1..] == Flat(a[0]) + (FlatAll(a[1..]) + x);
    assert b != [] ==> s[0] == '1' && s[1..] == Flat(b[0]) + (FlatAll(b[1..]) + y);
    if a != [] && b != [] {
      FlatEnds(a[0], b[0], FlatAll(a[1..]) + x, FlatAll(b[1..]) + y);
      FlatAllEnds(a[1..], b[1..], x, y);
      assert a == [a[0]] + a[1..] && b == [b[0]] + b[1..];
    }
  }

  predicate Bits(s: string) { forall c :: c in s ==> c == '0' || c == '1' }

  lemma {:induction false} NumberBits(n: nat)
    ensures Bits(Number(n))
  {
    if n > 0 { NumberBits(n - 1); }
  }

  lemma {:induction false} WordBits(s: string)
    ensures Bits(Word(s))
  {
    if s != "" {
      NumberBits(s[0] as nat);
      WordBits(s[1..]);
    }
  }

  lemma {:induction false} FlatBits(t: Tree)
    ensures Bits(Flat(t)) && Flat(t) != ""
    decreases t, 0
  {
    NumberBits(KindNumber(t.kind));
    WordBits(t.tag);
    WordBits(t.value);
    WordBits(t.notes);
    FlatAllBits(t.content);
  }

  lemma {:induction false} FlatAllBits(c: seq<Tree>)
    ensures Bits(FlatAll(c))
    decreases c
  {
    if c != [] {
      FlatBits(c[0]);
      FlatAllBits(c[1..]);
    }
  }

  /** A tree as it can be read back: nothing hangs below a scalar. */
  function Pruned(t: Tree): Tree
    decreases t
  {
    t.(content := if t.kind.Scalar? then [] else PrunedAll(t.content))
  }

  function PrunedAll(c: seq<Tree>): (r: seq<Tree>)
    ensures |r| == |c| && forall i :: 0 <= i < |c| ==> r[i] == Pruned(c[i])
    decreases c
  {
    if c == [] then [] else [Pruned(c[0])] + PrunedAll(c[1..])
  }

  function Encode(t: Tree): string {
    Flat(Pruned(if IsDocument(t) then t.content[0] else t))
  }

  /** A document around a root. */
  predicate Plain(doc: Tree) {
    IsDocument(doc) && |doc.content| == 1 && doc.value == "" && PairedSection(Pruned(doc.content[0]))
  }

  function DocumentOf(root: Tree): Tree { Tree(Document, "", "", "", [root]) }

  /** The text holds this root, and blank lines. */
  predicate Holds(text: string, root: Tree) {
    Visible(LinesOf(text)) == [Flat(Pruned(root))] && PairedSection(Pruned(root))
  }

  ghost function Decode(text: string): Option<Tree> {
    if exists root :: Holds(text, root) then
      var root :| Holds(text, root);
      Some(DocumentOf(Pruned(root)))
    else None
  }

  lemma OneLine(t: Tree)
    ensures Visible(LinesOf(Flat(t))) == [Flat(t)]
  {
    var s := Flat(t);
    FlatBits(t);
    hide Flat;
    assert s[|s| - 1] in s && s[0] in s;
    SplitNone(s, '\n');
    assert [s][1..] == [];
    var k := TrimmedTail(s, "");
    assert s + "" == s;
  }

  lemma HeldOnce(text: string, a: Tree, b: Tree)
    requires Holds(text, a) && Holds(text, b)
    ensures Pruned(a) == Pruned(b)
  {
    hide Flat;
    hide Pruned;
    hide Visible;
    hide LinesOf;
    assert [Flat(Pruned(a))][0] == [Flat(Pruned(b))][0];
    assert Flat(Pruned(a)) + "" == Flat(Pruned(b)) + "";
    FlatEnds(Pruned(a), Pruned(b), "", "");
  }

  lemma DecodesHeld(text: string, root: Tree)
    requires Holds(text, root)
    ensures Decode(text) == Some(DocumentOf(Pruned(root)))
  {
    hide Holds;
    hide Pruned;
    var other :| Holds(text, other) && Decode(text) == Some(DocumentOf(Pruned(other)));
    HeldOnce(text, root, other);
  }

  lemma {:induction false} PrunedIsAlike(t: Tree)
    ensures Alike(Pruned(t), t)
    decreases t
  {
    forall i | 0 <= i < |t.content| ensures Alike(Pruned(t.content[i]), t.content[i]) { PrunedIsAlike(t.content[i]); }
  }

  /** Reading back keeps all tags here, so there are none to restore. */
  lemma {:induction false} NothingRetagged(w: Tree, t: Tree)
    requires Retagged(w, Pruned(t), t)
    ensures w == Pruned(t)
    decreases t
  {
    if !t.kind.Scalar? {
      forall i | 0 <= i < |t.content| ensures w.content[i] == Pruned(t).content[i] {
        NothingRetagged(w.content[i], t.content[i]);
      }
    }
  }

  lemma {:induction false} PrunedTwice(t: Tree)
    ensures Pruned(Pruned(t)) == Pruned(t)
    decreases t
  {
    forall i | 0 <= i < |t.content| ensures Pruned(Pruned(t.content[i])) == Pruned(t.content[i]) {
      PrunedTwice(t.content[i]);
    }
  }

  lemma RetaggedEncodes(w: Tree, t: Tree)
    requires Plain(t) && Retagged(w, DocumentOf(Pruned(t.content[0])), t)
    ensures Encode(w) == Encode(t)
  {
    hide Flat;
    NothingRetagged(w.content[0], t.content[0]);
    PrunedTwice(t.content[0]);
  }

  lemma PlainReadsBack(c: Codec, t: Tree)
    requires c.encode(t) == Encode(t) && c.decode(Spaced(Encode(t), "http")) == Decode(Spaced(Encode(t), "http"))
    requires (forall w :: c.encode(w) == Encode(w)) && Plain(t)
    ensures ReadsBack(c, t)
  {
    hide Flat;
    hide Pruned;
    hide Encode;
    hide Spaced;
    hide Visible;
    hide LinesOf;
    var root := t.content[0];
    EncodesRoot(t);
    InsertsOnlyBlanks(Encode(t), "http");
    OneLine(Pruned(root));
    DecodesHeld(Spaced(Encode(t), "http"), root);
    PrunedIsAlike(root);
    forall w | Retagged(w, DocumentOf(Pruned(root)), t) ensures Encode(w) == Encode(t) { RetaggedEncodes(w, t); }
  }

  lemma EncodesRoot(t: Tree)
    requires IsDocument(t)
    ensures Encode(t) == Flat(Pruned(t.content[0]))
  {
  }

  lemma DecodesPlain(text: string)
    requires Decode(text).Some?
    ensures var doc := Decode(text).value;
            IsDocument(doc) && |doc.content| == 1 && doc.value == "" && PairedSection(doc.content[0])
  {
    hide Pruned;
    hide Flat;
    var root :| Holds(text, root) && Decode(text) == Some(DocumentOf(Pruned(root)));
  }

  lemma {:induction false} RunsReadBack(c: Codec, text: string, subnets: seq<string>)
    requires forall t :: c.encode(t) == Encode(t)
    requires forall t :: c.decode(t) == Decode(t)
    ensures RunReadsBack(c, text, subnets)
    decreases |subnets|
  {
    hide Encode;
    hide Decode;
    hide Ready;
    hide Spaced;
    hide ReadsBack;
    hide Plain;
    if subnets != [] && ReadyFile(c, text) {
      var doc := c.decode(text).value;
      var t := Written(doc, subnets[0]);
      DecodesPlain(text);
      WrittenIsPlain(doc, subnets[0]);
      PlainReadsBack(c, t);
      RunsReadBack(c, Spaced(c.encode(t), "http"), subnets[1..]);
    }
  }

  lemma WrittenIsPlain(doc: Tree, subnet: string)
    requires Ready(doc) && |doc.content| == 1 && doc.value == ""
    ensures Plain(Written(doc, subnet))
  {
    hide Patched;
    hide Pruned;
    hide Settled;
    hide Alike;
    WrittenIsReady(doc, subnet);
    var root := Written(doc, subnet).content[0];
    PrunedIsAlike(root);
    SectionAlike(Pruned(root), root);
  }

  /** A library as described reads back every run over every file that can be patched. */
  lemma LawsCanBeMet() returns (c: Codec)
    ensures ReadsPairs(c) && forall text, subnets :: RunReadsBack(c, text, subnets)
    ensures forall doc :: IsDocument(doc) && !IsDocument(doc.content[0]) ==> c.encode(doc) == c.encode(doc.content[0])
  {
    hide Encode;
    hide Decode;
    hide RunReadsBack;
    c := Codec((text: string) => Decode(text), (t: Tree) => Encode(t));
    forall text | Decode(text).Some? && IsDocument(Decode(text).value)
      ensures PairedSection(Decode(text).value.content[0])
    {
      DecodesPlain(text);
    }
    forall text, subnets ensures RunReadsBack(c, text, subnets) { RunsReadBack(c, text, subnets); }
    forall doc | IsDocument(doc) && !IsDocument(doc.content[0]) ensures Encode(doc) == Encode(doc.content[0]) {
      EncodesAlike(doc);
    }
  }

  lemma EncodesAlike(doc: Tree)
    requires IsDocument(doc) && !IsDocument(doc.content[0])
    ensures Encode(doc) == Encode(doc.content[0])
  {
  }
}
