/** Stored http configurations and the merge that makes one trust the requested
    subnets (pkg/haaddon/httpstore.go). */
module HttpConfig {
  import opened Strings
  import Networks

  /** A JSON value as far as the merge looks into it. Numbers, objects and their
      text are carried along and never interpreted. */
  datatype Json =
    | Null
    | Bool(b: bool)
    | Str(s: string)
    | Arr(items: seq<Json>)
    | Raw(text: string)

  type Config = map<string, Json>

  /** Subnets to trust, and the canonical text in which networks are compared
      (normalizeNetwork, which Networks models). */
  datatype Request = Request(subnets: seq<string>, canon: string -> Option<string>) {
    /** Canonical text is its own canonical text. */
    ghost predicate Valid() {
      forall s :: canon(s).Some? ==> canon(canon(s).value) == canon(s)
    }

    /** The canonical form of each entry of a list; none where it cannot be read. */
    function Forms(list: seq<string>): (forms: seq<Option<string>>)
      ensures |forms| == |list|
    {
      seq(|list|, i requires 0 <= i < |list| => canon(list[i]))
    }

    function Wanted(): (forms: seq<Option<string>>)
      ensures |forms| == |subnets|
    {
      Forms(subnets)
    }
  }

  /** The request the program makes. */
  function SubnetsToTrust(subnets: seq<string>): Request {
    Request(subnets, Networks.Normalize)
  }

  const FORWARDED := "use_x_forwarded_for"
  const PROXIES := "trusted_proxies"
  const ERROR := "error"
  const META_KEYS: seq<string> := ["created_at", "error", "error_message"]

  datatype MergeError = BadProxies | BadSubnet(subnet: string) | BadForwarded
  datatype Merge = Merged(config: Config, changed: bool) | Failed(error: MergeError)

  // ------------------------------------------------------------ decoding

  /** Decoding into a []string: null leaves the list nil, and a null element
      leaves its string empty. */
  function DecodeStrings(j: Json): Option<seq<string>> {
    match j
    case Null => Some([])
    case Arr(items) =>
      if forall i :: 0 <= i < |items| ==> items[i].Str? || items[i].Null? then
        Some(seq(|items|, i requires 0 <= i < |items| => if items[i].Str? then items[i].s else ""))
      else None
    case _ => None
  }

  function EncodeStrings(list: seq<string>): Json {
    Arr(seq(|list|, i requires 0 <= i < |list| => Str(list[i])))
  }

  /** Decoding into a bool that starts out false. */
  function DecodeBool(j: Json): Option<bool> {
    match j
    case Null => Some(false)
    case Bool(b) => Some(b)
    case _ => None
  }

  function ProxiesOf(c: Config): Option<seq<string>> {
    if PROXIES in c then DecodeStrings(c[PROXIES]) else Some([])
  }

  function ForwardedOf(c: Config): Option<bool> {
    if FORWARDED in c then DecodeBool(c[FORWARDED]) else Some(false)
  }

  /** Whether a stored slot holds a config Core will still apply. */
  predicate OnTrial(slot: Option<Config>) {
    slot.Some? && (ERROR in slot.value ==> slot.value[ERROR].Null?)
  }

  function WithoutMeta(c: Config): Config {
    c - (set k | k in META_KEYS)
  }

  // --------------------------------------------------------------- merging

  /** The networks a list already covers, in canonical form. */
  function Known(forms: seq<Option<string>>): set<string> {
    set f | f in forms && f.Some? :: f.value
  }

  predicate Readable(forms: seq<Option<string>>) {
    forall i :: 0 <= i < |forms| ==> forms[i].Some?
  }

  /** The forms that are not known yet, in order, each once. */
  function Missing(known: set<string>, forms: seq<Option<string>>): seq<string>
    requires Readable(forms)
    decreases |forms|
  {
    if forms == [] then []
    else
      var n := forms[0].value;
      if n in known then Missing(known, forms[1..])
      else [n] + Missing(known + {n}, forms[1..])
  }

  function FirstUnreadable(forms: seq<Option<string>>): (i: nat)
    requires !Readable(forms)
    ensures i < |forms| && forms[i].None?
  {
    if forms[0].None? then 0 else FirstUnreadable(forms[1..]) + 1
  }

  /** The list a merge leaves behind. */
  function NewProxies(list: seq<string>, req: Request): seq<string>
    requires Readable(req.Wanted())
  {
    list + Missing(Known(req.Forms(list)), req.Wanted())
  }

  /** Stores the merged list if it grew, and switches forwarding on if need be. */
  function Rebuild(kept: Config, list: seq<string>, merged: seq<string>): Merge {
    var extended := if merged == list then kept else kept[PROXIES := EncodeStrings(merged)];
    match ForwardedOf(extended)
    case None => Failed(BadForwarded)
    case Some(on) =>
      if on then Merged(extended, merged != list)
      else Merged(extended[FORWARDED := Bool(true)], true)
  }

  /** What withTrustedProxies returns. */
  function Merging(base: Config, req: Request): Merge {
    var kept, wanted := WithoutMeta(base), req.Wanted();
    match ProxiesOf(kept)
    case None => Failed(BadProxies)
    case Some(list) =>
      if !Readable(wanted) then Failed(BadSubnet(req.subnets[FirstUnreadable(wanted)]))
      else Rebuild(kept, list, NewProxies(list, req))
  }

  // ------------------------------------------------- the loops of the source

  method CopyWithoutMeta(c: Config) returns (out: Config)
    ensures out == WithoutMeta(c)
  {
    out := map[];
    var left := c.Keys;
    while left != {}
      invariant left <= c.Keys && out.Keys == c.Keys - left
      invariant forall k :: k in out ==> out[k] == c[k]
      decreases left
    {
      var k :| k in left;
      out := out[k := c[k]];
      left := left - {k};
    }
    assert out == c;
    for i := 0 to |META_KEYS|
      invariant out == c - (set k | k in META_KEYS[..i])
    {
      out := out - {META_KEYS[i]};
    }
    assert META_KEYS[..|META_KEYS|] == META_KEYS;
  }

  lemma KnownOneMore(forms: seq<Option<string>>, f: Option<string>)
    ensures Known(forms + [f]) == Known(forms) + if f.Some? then {f.value} else {}
  {
  }

  method KnownNetworks(trusted: seq<string>, req: Request) returns (known: set<string>)
    ensures known == Known(req.Forms(trusted))
  {
    known := {};
    ghost var forms := req.Forms(trusted);
    for i := 0 to |trusted|
      invariant known == Known(forms[..i])
    {
      var n := req.canon(trusted[i]);
      assert forms[..i + 1] == forms[..i] + [n];
      KnownOneMore(forms[..i], n);
      if n.Some? {
        known := known + {n.value};
      }
    }
    assert forms[..|trusted|] == forms;
  }

  function Members(list: seq<string>): set<string> { set n | n in list }

  method AddMissing(list: seq<string>, known: set<string>, req: Request)
    returns (trusted: seq<string>, changed: bool, bad: Option<string>)
    ensures bad.None? <==> Readable(req.Wanted())
    ensures bad.None? ==> trusted == list + Missing(known, req.Wanted())
    ensures bad.None? ==> (changed <==> trusted != list)
    ensures bad.Some? ==> bad.value == req.subnets[FirstUnreadable(req.Wanted())]
  {
    var seen := known;
    ghost var wanted, found: seq<string> := req.Wanted(), [];
    trusted, changed := list, false;
    for i := 0 to |req.subnets|
      invariant Readable(wanted[..i]) && found == Missing(known, wanted[..i])
      invariant trusted == list + found && seen == known + Members(found)
      invariant changed <==> found != []
    {
      var n := req.canon(req.subnets[i]);
      assert wanted[i] == n;
      if n.None? {
        UnreadableAt(wanted, i);
        return trusted, changed, Some(req.subnets[i]);
      }
      MissingUpTo(known, wanted, i);
      if n.value !in seen {
        seen := seen + {n.value};
        trusted := trusted + [n.value];
        changed := true;
        found := found + [n.value];
      }
    }
    assert wanted[..|req.subnets|] == wanted;
    bad := None;
  }

  method WithTrustedProxies(base: Config, req: Request) returns (r: Merge)
    ensures r == Merging(base, req)
  {
    var out := CopyWithoutMeta(base);

    var list: seq<string> := [];
    if PROXIES in out {
      var decoded := DecodeStrings(out[PROXIES]);
      if decoded.None? { return Failed(BadProxies); }
      list := decoded.value;
    }

    var known := KnownNetworks(list, req);
    var trusted, changed, bad := AddMissing(list, known, req);
    if bad.Some? { return Failed(BadSubnet(bad.value)); }
    if changed {
      out := out[PROXIES := EncodeStrings(trusted)];
    }

    var forwarded := false;
    if FORWARDED in out {
      var decoded := DecodeBool(out[FORWARDED]);
      if decoded.None? { return Failed(BadForwarded); }
      forwarded := decoded.value;
    }
    if !forwarded {
      out := out[FORWARDED := Bool(true)];
      changed := true;
    }
    return Merged(out, changed);
  }

  lemma {:induction false} UnreadableAt(forms: seq<Option<string>>, i: nat)
    requires i < |forms| && Readable(forms[..i]) && forms[i].None?
    ensures !Readable(forms) && FirstUnreadable(forms) == i
  {
    if i > 0 {
      assert forms[0] == forms[..i][0];
      assert forms[1..][..i - 1] == forms[..i][1..];
      UnreadableAt(forms[1..], i - 1);
    }
  }

  /** Looking for two batches is looking for the first and then the second. */
  lemma {:induction false} MissingAppend(known: set<string>, a: seq<Option<string>>, b: seq<Option<string>>)
    requires Readable(a) && Readable(b)
    ensures Missing(known, a + b)
         == Missing(known, a) + Missing(known + Members(Missing(known, a)), b)
    decreases |a|
  {
    var found := Missing(known, a);
    if a == [] {
      assert a + b == b && known + Members(found) == known;
    } else {
      assert (a + b)[1..] == a[1..] + b;
      var n := a[0].value;
      if n in known {
        MissingAppend(known, a[1..], b);
      } else {
        MissingAppend(known + {n}, a[1..], b);
        var later := Missing(known + {n}, a[1..]);
        assert known + {n} + Members(later) == known + Members([n] + later);
      }
    }
  }

  lemma MissingOneMore(known: set<string>, forms: seq<Option<string>>, f: Option<string>)
    requires Readable(forms) && f.Some?
    ensures var found := Missing(known, forms);
            Missing(known, forms + [f])
              == found + if f.value in known + Members(found) then [] else [f.value]
  {
    MissingAppend(known, forms, [f]);
    assert [f][1..] == [];
  }

  lemma MissingUpTo(known: set<string>, forms: seq<Option<string>>, i: nat)
    requires i < |forms| && Readable(forms[..i]) && forms[i].Some?
    ensures Readable(forms[..i + 1])
    ensures var found := Missing(known, forms[..i]);
            Missing(known, forms[..i + 1])
              == found + if forms[i].value in known + Members(found) then [] else [forms[i].value]
  {
    MissingOneMore(known, forms[..i], forms[i]);
    assert forms[..i + 1] == forms[..i] + [forms[i]];
  }

  // ---------------------------------------------------- what a merge achieves

  /** c trusts every subnet, and trusts are in force. */
  predicate Trusts(c: Config, req: Request) {
    var list := ProxiesOf(c);
    ForwardedOf(c) == Some(true) && list.Some? && Readable(req.Wanted())
    && forall f :: f in req.Wanted() ==> f.value in Known(req.Forms(list.value))
  }

  /** Each form appears in the list or was found missing, and nothing else was:
      the additions are the first occurrences of the unknown forms. */
  lemma {:induction false} MissingExactly(known: set<string>, forms: seq<Option<string>>)
    requires Readable(forms)
    ensures forall n :: n in Missing(known, forms) <==> Some(n) in forms && n !in known
    ensures forall i, j :: 0 <= i < j < |Missing(known, forms)| ==> Missing(known, forms)[i] != Missing(known, forms)[j]
    decreases |forms|
  {
    if forms != [] {
      var n := forms[0].value;
      var known' := if n in known then known else known + {n};
      MissingExactly(known', forms[1..]);
      assert forms == [forms[0]] + forms[1..];
      assert forms[0] == Some(n);
    }
  }

  /** The i-th addition stands for the first form that spells it, and the
      additions before it are those the forms before that one call for. */
  lemma {:induction false} AddedInOrder(known: set<string>, forms: seq<Option<string>>, i: nat) returns (k: nat)
    requires Readable(forms) && i < |Missing(known, forms)|
    ensures k < |forms| && forms[k] == Some(Missing(known, forms)[i]) && forms[k] !in forms[..k]
    ensures Missing(known, forms[..k]) == Missing(known, forms)[..i]
    decreases |forms|
  {
    var last := |forms| - 1;
    var init := forms[..last];
    MissingUpTo(known, forms, last);
    assert forms[..last + 1] == forms;
    if i < |Missing(known, init)| {
      k := AddedInOrder(known, init, i);
      assert forms[..k] == init[..k];
    } else {
      k := last;
      MissingExactly(known, init);
    }
  }

  /** The same settings apart from the two keys a merge may write. */
  predicate SameElsewhere(c: Config, d: Config) {
    c - {PROXIES, FORWARDED} == d - {PROXIES, FORWARDED}
  }

  lemma MetaApart()
    ensures PROXIES !in META_KEYS && FORWARDED !in META_KEYS && PROXIES != FORWARDED && ERROR in META_KEYS
  {
    assert |PROXIES| == 15 && |FORWARDED| == 19;
    assert META_KEYS[0] == "created_at" && META_KEYS[1] == "error" && META_KEYS[2] == "error_message";
  }

  lemma CanonicalForms(added: seq<string>, req: Request)
    requires forall n :: n in added ==> req.canon(n) == Some(n)
    ensures Known(req.Forms(added)) == Members(added)
  {
    var forms := req.Forms(added);
    forall i | 0 <= i < |added| ensures forms[i] == Some(added[i]) {
      assert added[i] in added;
    }
    forall n ensures n in Known(forms) <==> n in added {
      if n in added {
        var i :| 0 <= i < |added| && added[i] == n;
        assert forms[i] == Some(n);
      }
    }
  }

  lemma KnownAppend(a: seq<Option<string>>, b: seq<Option<string>>)
    ensures Known(a + b) == Known(a) + Known(b)
  {
  }

  lemma DecodeOfEncode(list: seq<string>)
    ensures DecodeStrings(EncodeStrings(list)) == Some(list)
  {
    var items := EncodeStrings(list).items;
    assert forall i :: 0 <= i < |items| ==> items[i] == Str(list[i]);
    assert DecodeStrings(Arr(items)).value == list;
  }

  /** Every wanted form is known in the new list, and what was known still is. */
  lemma NewProxiesKnown(list: seq<string>, req: Request)
    requires req.Valid() && Readable(req.Wanted())
    ensures Known(req.Forms(NewProxies(list, req))) == Known(req.Forms(list)) + Known(req.Wanted())
    ensures Known(req.Forms(NewProxies(list, req)))
         == Known(req.Forms(list)) + Members(Missing(Known(req.Forms(list)), req.Wanted()))
  {
    var added := Missing(Known(req.Forms(list)), req.Wanted());
    MissingExactly(Known(req.Forms(list)), req.Wanted());
    forall n | n in added ensures req.canon(n) == Some(n) {
      var i :| 0 <= i < |req.subnets| && req.Wanted()[i] == Some(n);
      assert req.canon(req.subnets[i]) == Some(n);
    }
    CanonicalForms(added, req);
    assert req.Forms(list + added) == req.Forms(list) + req.Forms(added);
    KnownAppend(req.Forms(list), req.Forms(added));
  }

  lemma RebuildCoverage(kept: Config, list: seq<string>, merged: seq<string>)
    requires Rebuild(kept, list, merged).Merged? && ProxiesOf(kept) == Some(list)
    ensures var out := Rebuild(kept, list, merged).config;
            && ForwardedOf(out) == Some(true) && ProxiesOf(out) == Some(merged)
            && SameElsewhere(out, kept) && out.Keys <= kept.Keys + {PROXIES, FORWARDED}
  {
    MetaApart();
    DecodeOfEncode(merged);
  }

  /** On success: the old list is a prefix of the new one, the rest is what was
      missing, forwarding is on, no metadata is left, and no other key changed. */
  lemma MergeCoverage(base: Config, req: Request)
    requires Merging(base, req).Merged?
    ensures var out := Merging(base, req).config;
            && ForwardedOf(out) == Some(true)
            && (forall k :: k in META_KEYS ==> k !in out)
            && SameElsewhere(out, WithoutMeta(base))
            && ProxiesOf(base).Some?
            && ProxiesOf(out) == Some(NewProxies(ProxiesOf(base).value, req))
  {
    MetaApart();
    var list := ProxiesOf(base).value;
    RebuildCoverage(WithoutMeta(base), list, NewProxies(list, req));
  }

  /** The metadata Core adds or drops plays no part in a merge, nor in trust. */
  lemma MetaDoesNotMatter(c: Config, d: Config, req: Request)
    requires WithoutMeta(c) == WithoutMeta(d)
    ensures Merging(c, req) == Merging(d, req)
    ensures Trusts(c, req) <==> Trusts(d, req)
  {
    MetaApart();
    assert PROXIES in c <==> PROXIES in WithoutMeta(c);
    assert FORWARDED in c <==> FORWARDED in WithoutMeta(c);
    assert PROXIES in c ==> c[PROXIES] == WithoutMeta(d)[PROXIES];
    assert FORWARDED in c ==> c[FORWARDED] == WithoutMeta(d)[FORWARDED];
  }

  lemma NothingMissing(known: set<string>, forms: seq<Option<string>>)
    requires Readable(forms)
    ensures Missing(known, forms) == [] <==> forall f :: f in forms ==> f.value in known
  {
    MissingExactly(known, forms);
    if Missing(known, forms) == [] {
      forall f | f in forms ensures f.value in known {
        assert f == Some(f.value);
        assert f.value !in Missing(known, forms);
      }
    } else {
      var n := Missing(known, forms)[0];
      assert n in Missing(known, forms);
    }
  }

  /** A config trusts every subnet exactly when merging them changes nothing. */
  lemma TrustsMeansUnchanged(c: Config, req: Request)
    ensures Trusts(c, req) <==> Merging(c, req) == Merged(WithoutMeta(c), false)
    ensures Trusts(c, req) <==> Merging(c, req).Merged? && !Merging(c, req).changed
  {
    MetaDoesNotMatter(c, WithoutMeta(c), req);
    var list := ProxiesOf(c);
    if list.Some? && Readable(req.Wanted()) {
      NothingMissing(Known(req.Forms(list.value)), req.Wanted());
    }
  }

  /** What a merge returns trusts every subnet it was asked for. */
  lemma MergeTrusts(base: Config, req: Request)
    requires req.Valid() && Merging(base, req).Merged?
    ensures Trusts(Merging(base, req).config, req)
  {
    MergeCoverage(base, req);
    NewProxiesKnown(ProxiesOf(base).value, req);
  }

  /** A second merge of the same subnets returns its input and reports no change. */
  lemma MergeAgain(base: Config, req: Request)
    requires req.Valid() && Merging(base, req).Merged?
    ensures Merging(Merging(base, req).config, req) == Merged(Merging(base, req).config, false)
  {
    var out := Merging(base, req).config;
    MergeTrusts(base, req);
    TrustsMeansUnchanged(out, req);
    MergeCoverage(base, req);
    assert WithoutMeta(out) == out;
  }

  /** A change is reported exactly when the result differs from the base. */
  lemma ChangedExactly(base: Config, req: Request)
    requires req.Valid() && Merging(base, req).Merged?
    ensures Merging(base, req).changed <==> Merging(base, req).config != WithoutMeta(base)
  {
    if Merging(base, req).config == WithoutMeta(base) {
      MergeTrusts(base, req);
      MetaDoesNotMatter(base, WithoutMeta(base), req);
      TrustsMeansUnchanged(base, req);
    }
  }

  lemma ListInTwoSteps(list: seq<string>, one: Request, two: Request, both: Request)
    requires one.Valid() && Readable(one.Wanted()) && Readable(two.Wanted()) && Readable(both.Wanted())
    requires two == Request(two.subnets, one.canon) && both == Request(one.subnets + two.subnets, one.canon)
    ensures NewProxies(NewProxies(list, one), two) == NewProxies(list, both)
  {
    assert both.Wanted() == one.Wanted() + two.Wanted();
    MissingAppend(Known(one.Forms(list)), one.Wanted(), two.Wanted());
    NewProxiesKnown(list, one);
    assert two.Forms(NewProxies(list, one)) == one.Forms(NewProxies(list, one));
    assert both.Forms(list) == one.Forms(list);
  }

  lemma MergingRebuilds(base: Config, req: Request)
    requires ProxiesOf(base).Some? && Readable(req.Wanted())
    ensures var list := ProxiesOf(base).value;
            Merging(base, req) == Rebuild(WithoutMeta(base), list, NewProxies(list, req))
  {
    MetaDoesNotMatter(base, WithoutMeta(base), req);
    MetaApart();
  }

  lemma RebuildTwice(kept: Config, list: seq<string>, one: seq<string>, two: seq<string>)
    requires list <= one <= two
    requires Rebuild(kept, list, one).Merged? && (forall k :: k in META_KEYS ==> k !in kept)
    ensures var first := Rebuild(kept, list, one);
            Rebuild(WithoutMeta(first.config), one, two).Merged? &&
            var second := Rebuild(WithoutMeta(first.config), one, two);
            Rebuild(kept, list, two) == Merged(second.config, first.changed || second.changed)
  {
    MetaApart();
    var first := Rebuild(kept, list, one);
    assert WithoutMeta(first.config) == first.config;
  }

  /** Merging a and then b is merging a + b: same config, a change when either
      part changes something, an error when either part fails. */
  lemma MergeInTwoSteps(base: Config, canon: string -> Option<string>, a: seq<string>, b: seq<string>)
    requires Request(a, canon).Valid()
    ensures var one, two, both := Request(a, canon), Request(b, canon), Request(a + b, canon);
            && (Merging(base, both).Failed? <==>
                  Merging(base, one).Failed? || Merging(Merging(base, one).config, two).Failed?)
            && (Merging(base, both).Merged? ==>
                  var first := Merging(base, one);
                  var second := Merging(first.config, two);
                  Merging(base, both) == Merged(second.config, first.changed || second.changed))
  {
    var one, two, both := Request(a, canon), Request(b, canon), Request(a + b, canon);
    ReadableInParts(canon, a, b);
    MergedExactly(base, one);
    MergedExactly(base, both);
    if ProxiesOf(base).Some? && Readable(both.Wanted()) {
      MergeInTwoStepsReadable(base, one, two, both);
    } else if Merging(base, one).Merged? {
      MergedExactly(Merging(base, one).config, two);
    }
  }

  lemma ReadableInParts(canon: string -> Option<string>, a: seq<string>, b: seq<string>)
    ensures var one, two, both := Request(a, canon), Request(b, canon), Request(a + b, canon);
            && both.Wanted() == one.Wanted() + two.Wanted()
            && (Readable(both.Wanted()) <==> Readable(one.Wanted()) && Readable(two.Wanted()))
  {
    var one, two, both := Request(a, canon), Request(b, canon), Request(a + b, canon);
    assert both.Wanted() == one.Wanted() + two.Wanted();
    assert forall i :: 0 <= i < |a| ==> both.Wanted()[i] == one.Wanted()[i];
    assert forall i :: 0 <= i < |b| ==> both.Wanted()[|a| + i] == two.Wanted()[i];
  }

  lemma MergedExactly(base: Config, req: Request)
    ensures Merging(base, req).Merged? ==> ProxiesOf(base).Some? && Readable(req.Wanted())
  {
    MetaDoesNotMatter(base, WithoutMeta(base), req);
    MetaApart();
  }

  lemma MergeInTwoStepsReadable(base: Config, one: Request, two: Request, both: Request)
    requires one.Valid() && two.canon == one.canon && both == Request(one.subnets + two.subnets, one.canon)
    requires ProxiesOf(base).Some?
    requires Readable(one.Wanted()) && Readable(two.Wanted()) && Readable(both.Wanted())
    ensures Merging(base, both).Failed? <==>
              Merging(base, one).Failed? || Merging(Merging(base, one).config, two).Failed?
    ensures Merging(base, both).Merged? ==>
              var first := Merging(base, one);
              var second := Merging(first.config, two);
              Merging(base, both) == Merged(second.config, first.changed || second.changed)
  {
    hide Merging;
    hide Rebuild;
    hide Readable;
    hide NewProxies;
    hide WithoutMeta;
    var list := ProxiesOf(base).value;
    MergingRebuilds(base, one);
    MergingRebuilds(base, both);
    ListInTwoSteps(list, one, two, both);
    NewProxiesGrow(list, one, two);
    if Merging(base, one).Merged? {
      var first := Merging(base, one).config;
      MergeCoverage(base, one);
      MergingRebuilds(first, two);
      MetaGone(base);
      RebuildTwice(WithoutMeta(base), list, NewProxies(list, one), NewProxies(list, both));
    } else {
      RebuildFails(WithoutMeta(base), list, NewProxies(list, one), NewProxies(list, both));
    }
  }

  lemma NewProxiesGrow(list: seq<string>, one: Request, two: Request)
    requires Readable(one.Wanted()) && Readable(two.Wanted())
    ensures list <= NewProxies(list, one) <= NewProxies(NewProxies(list, one), two)
  {
  }

  lemma MetaGone(c: Config)
    ensures forall k :: k in META_KEYS ==> k !in WithoutMeta(c)
  {
  }

  lemma RebuildFails(kept: Config, list: seq<string>, one: seq<string>, two: seq<string>)
    ensures Rebuild(kept, list, one).Failed? <==> Rebuild(kept, list, two).Failed?
  {
    MetaApart();
  }

  // ------------------------------------------- the same, on the stored JSON

  /** The metadata is three keys, and everything else stays as it is. */
  lemma MetaIsThreeKeys(c: Config, k: string)
    ensures k in WithoutMeta(c) <==> k in c && k != "created_at" && k != "error" && k != "error_message"
    ensures k in WithoutMeta(c) ==> WithoutMeta(c)[k] == c[k]
  {
    assert META_KEYS[0] == "created_at" && META_KEYS[1] == "error" && META_KEYS[2] == "error_message";
  }

  /** A pending config is on trial unless its error says something. */
  lemma OnTrialUnlessError(p: Config)
    ensures OnTrial(Some(p)) <==> "error" !in p || p["error"] == Null
    ensures !OnTrial(None)
  {
  }

  /** A JSON value that reads as a list of strings. */
  predicate IsList(j: Json) {
    j == Null || (j.Arr? && forall item :: item in j.items ==> item == Null || item.Str?)
  }

  /** The element stands for the string. */
  predicate Spells(item: Json, text: string) {
    item == Str(text) || (item == Null && text == "")
  }

  lemma ListMeans(c: Config)
    ensures ProxiesOf(c).Some? <==> ("trusted_proxies" in c ==> IsList(c["trusted_proxies"]))
    ensures "trusted_proxies" !in c || c["trusted_proxies"] == Null ==> ProxiesOf(c) == Some([])
    ensures ProxiesOf(c).Some? && "trusted_proxies" in c && c["trusted_proxies"].Arr? ==>
              var items, list := c["trusted_proxies"].items, ProxiesOf(c).value;
              |list| == |items| && forall i :: 0 <= i < |items| ==> Spells(items[i], list[i])
  {
    if "trusted_proxies" in c && c["trusted_proxies"].Arr? {
      var items := c["trusted_proxies"].items;
      assert IsList(Arr(items)) <==> forall i :: 0 <= i < |items| ==> items[i].Str? || items[i].Null?;
    }
  }

  /** Forwarding is on, off, or unreadable. */
  lemma ForwardingMeans(c: Config)
    ensures ForwardedOf(c) == Some(true) <==> "use_x_forwarded_for" in c && c["use_x_forwarded_for"] == Bool(true)
    ensures ForwardedOf(c) == Some(false) <==>
              "use_x_forwarded_for" in c ==> c["use_x_forwarded_for"] in {Null, Bool(false)}
  {
  }

  /** The array lists a network in some spelling. */
  ghost predicate Lists(items: seq<Json>, form: string, canon: string -> Option<string>) {
    exists i, text :: 0 <= i < |items| && Spells(items[i], text) && canon(text) == Some(form)
  }

  lemma ListedMeans(c: Config, req: Request, form: string)
    requires ProxiesOf(c).Some?
    ensures form in Known(req.Forms(ProxiesOf(c).value)) <==>
              && "trusted_proxies" in c && c["trusted_proxies"].Arr?
              && Lists(c["trusted_proxies"].items, form, req.canon)
  {
    ListMeans(c);
    hide ProxiesOf;
    var list := ProxiesOf(c).value;
    var forms := req.Forms(list);
    if form in Known(forms) {
      var i :| 0 <= i < |forms| && forms[i] == Some(form);
      assert Spells(c["trusted_proxies"].items[i], list[i]) && req.canon(list[i]) == Some(form);
    }
    if "trusted_proxies" in c && c["trusted_proxies"].Arr? && Lists(c["trusted_proxies"].items, form, req.canon) {
      var items := c["trusted_proxies"].items;
      var i, text :| 0 <= i < |items| && Spells(items[i], text) && req.canon(text) == Some(form);
      assert Spells(items[i], list[i]) && list[i] == text && forms[i] == Some(form);
    }
  }

  /** Trust, on the JSON: forwarding is switched on, every subnet can be read, and the
      list, if there is one, can be read and names each of them. */
  lemma TrustsMeans(c: Config, req: Request)
    ensures Trusts(c, req) <==>
              && "use_x_forwarded_for" in c && c["use_x_forwarded_for"] == Bool(true)
              && ("trusted_proxies" in c ==> IsList(c["trusted_proxies"]))
              && forall i :: 0 <= i < |req.subnets| ==>
                   && req.canon(req.subnets[i]).Some?
                   && "trusted_proxies" in c && c["trusted_proxies"].Arr?
                   && Lists(c["trusted_proxies"].items, req.canon(req.subnets[i]).value, req.canon)
  {
    ForwardingMeans(c);
    ListMeans(c);
    var wanted := req.Wanted();
    if ProxiesOf(c).Some? && Readable(wanted) {
      forall f | f in wanted
        ensures f.value in Known(req.Forms(ProxiesOf(c).value)) <==>
                  && "trusted_proxies" in c && c["trusted_proxies"].Arr?
                  && Lists(c["trusted_proxies"].items, f.value, req.canon)
      {
        ListedMeans(c, req, f.value);
      }
      assert forall i :: 0 <= i < |wanted| ==> wanted[i] in wanted && wanted[i] == req.canon(req.subnets[i]);
    }
    hide ForwardedOf;
    hide ProxiesOf;
    hide Lists;
    hide IsList;
  }

  /** The base already lists the network of a subnet. */
  ghost predicate ListsAlready(base: Config, form: string, canon: string -> Option<string>) {
    "trusted_proxies" in base && base["trusted_proxies"].Arr? && Lists(base["trusted_proxies"].items, form, canon)
  }

  /** What the base listed stands in front, each entry as a string. */
  predicate KeepsEntries(base: Config, items: seq<Json>) {
    "trusted_proxies" in base && base["trusted_proxies"].Arr? ==>
      var before := base["trusted_proxies"].items;
      |before| <= |items| && forall i :: 0 <= i < |before| ==> items[i].Str? && Spells(before[i], items[i].s)
  }

  /** Neither metadata nor written by a merge. */
  predicate NotOurs(k: string) {
    k !in ["created_at", "error", "error_message"] && k !in ["use_x_forwarded_for", "trusted_proxies"]
  }

  /** What a merge appends to the list. */
  function Added(base: Config, req: Request): seq<string>
    requires ProxiesOf(base).Some? && Readable(req.Wanted())
  {
    Missing(Known(req.Forms(ProxiesOf(base).value)), req.Wanted())
  }

  lemma AllListed(base: Config, req: Request)
    requires ProxiesOf(base).Some? && Readable(req.Wanted())
    ensures forall i :: 0 <= i < |req.subnets| ==> req.canon(req.subnets[i]).Some?
    ensures Added(base, req) == [] <==>
              forall i :: 0 <= i < |req.subnets| ==> ListsAlready(base, req.canon(req.subnets[i]).value, req.canon)
  {
    var wanted, known := req.Wanted(), Known(req.Forms(ProxiesOf(base).value));
    assert forall i :: 0 <= i < |wanted| ==> wanted[i] in wanted && wanted[i] == req.canon(req.subnets[i]);
    NothingMissing(known, wanted);
    forall i | 0 <= i < |wanted|
      ensures wanted[i].value in known <==> ListsAlready(base, req.canon(req.subnets[i]).value, req.canon)
    {
      ListedMeans(base, req, wanted[i].value);
    }
  }

  lemma GrownList(base: Config, req: Request)
    requires ProxiesOf(base).Some? && Readable(req.Wanted())
    ensures var items := EncodeStrings(ProxiesOf(base).value + Added(base, req)).items;
            && (forall item :: item in items ==> item.Str?)
            && KeepsEntries(base, items)
            && forall i :: 0 <= i < |req.subnets| ==>
                 var form := req.canon(req.subnets[i]);
                 form.Some? && (ListsAlready(base, form.value, req.canon) || Str(form.value) in items)
  {
    ListMeans(base);
    var wanted, list := req.Wanted(), ProxiesOf(base).value;
    var known, items := Known(req.Forms(list)), EncodeStrings(list + Added(base, req)).items;
    MissingExactly(known, wanted);
    forall i | 0 <= i < |req.subnets|
      ensures req.canon(req.subnets[i]).Some?
      ensures ListsAlready(base, req.canon(req.subnets[i]).value, req.canon)
              || Str(req.canon(req.subnets[i]).value) in items
    {
      assert wanted[i] in wanted && wanted[i] == req.canon(req.subnets[i]);
      ListedMeans(base, req, wanted[i].value);
      if wanted[i].value !in known {
        var k :| 0 <= k < |Added(base, req)| && Added(base, req)[k] == wanted[i].value;
        assert items[|list| + k] == Str(wanted[i].value);
      }
    }
  }

  lemma MergedKeys(base: Config, req: Request)
    requires Merging(base, req).Merged?
    ensures var out := Merging(base, req).config;
            && "created_at" !in out && "error" !in out && "error_message" !in out
            && (forall k :: k in base && NotOurs(k) ==> k in out && out[k] == base[k])
            && (forall k :: k in out && k !in base ==> !NotOurs(k))
  {
    var out := Merging(base, req).config;
    forall k ensures k in WithoutMeta(base) <==> k in base && k !in ["created_at", "error", "error_message"] {
      MetaIsThreeKeys(base, k);
    }
    assert META_KEYS[0] == "created_at" && META_KEYS[1] == "error" && META_KEYS[2] == "error_message";
    MetaApart();
  }

  lemma ListAfterMerge(base: Config, req: Request)
    requires Merging(base, req).Merged? && ProxiesOf(base).Some? && Readable(req.Wanted())
    ensures var out := Merging(base, req).config;
            if Added(base, req) == [] then
              && ("trusted_proxies" in out <==> "trusted_proxies" in base)
              && ("trusted_proxies" in base ==> out["trusted_proxies"] == base["trusted_proxies"])
            else
              && "trusted_proxies" in out
              && out["trusted_proxies"] == EncodeStrings(ProxiesOf(base).value + Added(base, req))
  {
    MetaApart();
    MergingRebuilds(base, req);
  }

  /** The config a merge returns, key by key: forwarding is switched on; the list is left
      as it was if it names every subnet, and else keeps its entries, as strings, in front
      of the canonical forms it lacked; the metadata is gone and the rest untouched. */
  lemma MergedConfig(base: Config, req: Request)
    requires Merging(base, req).Merged?
    ensures var out := Merging(base, req).config;
            && "use_x_forwarded_for" in out && out["use_x_forwarded_for"] == Bool(true)
            && "created_at" !in out && "error" !in out && "error_message" !in out
            && (forall k :: k in base && NotOurs(k) ==> k in out && out[k] == base[k])
            && (forall k :: k in out && k !in base ==> !NotOurs(k))
    ensures forall i :: 0 <= i < |req.subnets| ==> req.canon(req.subnets[i]).Some?
    ensures var out := Merging(base, req).config;
            if forall i :: 0 <= i < |req.subnets| ==> ListsAlready(base, req.canon(req.subnets[i]).value, req.canon)
            then
              && ("trusted_proxies" in out <==> "trusted_proxies" in base)
              && ("trusted_proxies" in base ==> out["trusted_proxies"] == base["trusted_proxies"])
            else
              && "trusted_proxies" in out && out["trusted_proxies"].Arr?
              && (forall item :: item in out["trusted_proxies"].items ==> item.Str?)
              && KeepsEntries(base, out["trusted_proxies"].items)
              && forall i :: 0 <= i < |req.subnets| ==>
                   var form := req.canon(req.subnets[i]).value;
                   ListsAlready(base, form, req.canon) || Str(form) in out["trusted_proxies"].items
  {
    MergeCoverage(base, req);
    MergedExactly(base, req);
    ForwardingMeans(Merging(base, req).config);
    MergedKeys(base, req);
    ListAfterMerge(base, req);
    AllListed(base, req);
    if Added(base, req) != [] { GrownList(base, req); }
    hide Merging;
    hide Added;
    hide ListsAlready;
    hide KeepsEntries;
    hide NotOurs;
    hide ProxiesOf;
    hide ForwardedOf;
    assert forall i :: 0 <= i < |req.subnets| ==> req.Wanted()[i] == req.canon(req.subnets[i]);
  }

  lemma {:induction false} FirstIsFirst(forms: seq<Option<string>>)
    requires !Readable(forms)
    ensures var i := FirstUnreadable(forms);
            i < |forms| && forms[i].None? && forall j :: 0 <= j < i ==> forms[j].Some?
  {
    if forms[0].Some? {
      FirstIsFirst(forms[1..]);
      forall j | 0 <= j < FirstUnreadable(forms) ensures forms[j].Some? {
        if j > 0 { assert forms[j] == forms[1..][j - 1]; }
      }
    }
  }

  /** Which merges fail, and with what: an unreadable list comes before an unreadable
      subnet, the first one counting, and that before an unreadable flag. */
  lemma MergeFailsExactly(base: Config, req: Request)
    ensures Merging(base, req) == Failed(BadProxies) <==>
              "trusted_proxies" in base && !IsList(base["trusted_proxies"])
    ensures forall s :: Merging(base, req) == Failed(BadSubnet(s)) <==>
              && ("trusted_proxies" in base ==> IsList(base["trusted_proxies"]))
              && exists i :: 0 <= i < |req.subnets| && req.subnets[i] == s && req.canon(s).None?
                             && forall j :: 0 <= j < i ==> req.canon(req.subnets[j]).Some?
    ensures Merging(base, req) == Failed(BadForwarded) <==>
              && ("trusted_proxies" in base ==> IsList(base["trusted_proxies"]))
              && (forall i :: 0 <= i < |req.subnets| ==> req.canon(req.subnets[i]).Some?)
              && "use_x_forwarded_for" in base && base["use_x_forwarded_for"] != Null
              && !base["use_x_forwarded_for"].Bool?
  {
    ListMeans(base);
    MetaDoesNotMatter(base, WithoutMeta(base), req);
    MetaApart();
    var wanted := req.Wanted();
    assert forall i :: 0 <= i < |wanted| ==> wanted[i] == req.canon(req.subnets[i]);
    if ProxiesOf(base).Some? && !Readable(wanted) {
      FirstIsFirst(wanted);
    }
    if ProxiesOf(base).Some? && Readable(wanted) {
      MergingRebuilds(base, req);
    }
  }

  // ----------------------------------------------- with the real canonical form

  lemma SubnetsToTrustIsValid(subnets: seq<string>)
    ensures SubnetsToTrust(subnets).Valid()
  {
    forall s | Networks.Normalize(s).Some?
      ensures Networks.Normalize(Networks.Normalize(s).value) == Networks.Normalize(s)
    {
      Networks.NormalizeIsIdempotent(s);
    }
  }

  /** Trust is about networks: for every subnet the list holds an entry, in
      whatever spelling, that denotes the very same addresses. */
  lemma TrustedNetwork(c: Config, subnets: seq<string>, i: nat) returns (entry: string)
    requires Trusts(c, SubnetsToTrust(subnets)) && i < |subnets|
    ensures ProxiesOf(c).Some? && entry in ProxiesOf(c).value
    ensures "trusted_proxies" in c && c["trusted_proxies"].Arr? && Str(entry) in c["trusted_proxies"].items
    ensures Networks.Normalize(entry).Some? && Networks.Normalize(subnets[i]).Some?
    ensures Networks.SameNetwork(Networks.Denoted(entry), Networks.Denoted(subnets[i]))
  {
    Networks.EmptyIsNoNetwork();
    ListMeans(c);
    hide Networks.Normalize;
    var req, list := SubnetsToTrust(subnets), ProxiesOf(c).value;
    var f := req.Wanted()[i];
    assert f in req.Wanted() && f.Some?;
    assert f in req.Forms(list);
    var k :| 0 <= k < |list| && req.Forms(list)[k] == f;
    entry := list[k];
    assert Spells(c["trusted_proxies"].items[k], entry);
    Networks.TextDecidesEquality(entry, subnets[i]);
  }
}
