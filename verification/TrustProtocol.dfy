/** configureTrustedProxies and confirm (pkg/haaddon/httpstore.go) as steps taken
    against a Core that moves on its own between any two of them. */
module TrustProtocol {
  import opened Strings
  import opened HttpConfig
  import opened CoreStore
  import Networks

  datatype Command = GetConfig | Configure | Promote

  /** Where a run stands; each state but the first and last waits for Core. */
  datatype Pc =
    | Idle                           // no run yet
    | Reading                        // connected: read the configuration
    | Configuring(desired: Config)   // something has to change: apply it
    | Redialing                      // applied: wait out the restart
    | Confirming                     // read what is on trial
    | Promoting                      // something is: promote it
    | Rechecking                     // promoting failed: read once more
    | Done(ok: bool)                 // returned, with or without an error

  predicate Running(pc: Pc) { !pc.Idle? && !pc.Done? }

  /** What was true when the current run began. */
  datatype Start = Start(accepted: nat, settled: bool)

  /** `accepted` counts the configure commands Core ever accepted; `issued` lists
      the commands of the current run. */
  datatype Sys = Sys(core: Core, pc: Pc, accepted: nat, issued: seq<Command>, start: Start)

  function CommandAt(pc: Pc): Option<Command> {
    match pc
    case Reading => Some(GetConfig)
    case Configuring(_) => Some(Configure)
    case Confirming => Some(GetConfig)
    case Promoting => Some(Promote)
    case Rechecking => Some(GetConfig)
    case _ => None
  }

  // ------------------------------------------------------------------ steps

  predicate Begins(req: Request, s: Sys, s': Sys) {
    && !Running(s.pc)
    && s' == Sys(s.core, s'.pc, s.accepted, [], Start(s.accepted, s.core.Settled(req)))
    && (s'.pc == Reading || s'.pc == Done(false))
  }

  /** The run ends early: cut off, out of time, refused, or the reply is lost. */
  predicate Ends(s: Sys, s': Sys) {
    && Running(s.pc)
    && (s'.issued == s.issued || (CommandAt(s.pc).Some? && s'.issued == s.issued + [CommandAt(s.pc).value]))
    && s' == s.(pc := Done(false), issued := s'.issued)
  }

  /** What a run does once it has read the configuration. */
  function Decision(req: Request, core: Core): Pc {
    match Merging(core.InForce(), req)
    case Failed(_) => Done(false)
    case Merged(desired, changed) =>
      if changed then Configuring(desired)
      else if OnTrial(core.pending) then Confirming
      else Done(true)
  }

  predicate Reads(req: Request, s: Sys, s': Sys) {
    s.pc.Reading? && s' == s.(pc := Decision(req, s.core), issued := s.issued + [GetConfig])
  }

  predicate ConfigureAccepted(s: Sys, s': Sys) {
    && s.pc.Configuring? && Staged(s.core, s.pc.desired, s'.core)
    && s' == Sys(s'.core, s'.pc, s.accepted + 1, s.issued + [Configure], s.start)
    && (s'.pc == Redialing || s'.pc == Confirming || s'.pc == Done(false))
  }

  predicate Redials(s: Sys, s': Sys) {
    s.pc.Redialing? && s' == s.(pc := Confirming)
  }

  predicate ReadsTrial(s: Sys, s': Sys) {
    && s.pc.Confirming?
    && s' == s.(pc := if OnTrial(s.core.pending) then Promoting else Done(true), issued := s.issued + [GetConfig])
  }

  /** The reply to an accepted promote may be lost, which counts as a failure. */
  predicate PromoteAccepted(s: Sys, s': Sys) {
    && s.pc.Promoting? && Promoted(s.core, s'.core)
    && s' == s.(core := s'.core, pc := s'.pc, issued := s.issued + [Promote])
    && (s'.pc == Done(true) || s'.pc == Rechecking)
  }

  predicate PromoteFails(s: Sys, s': Sys) {
    s.pc.Promoting? && s' == s.(pc := Rechecking, issued := s.issued + [Promote])
  }

  predicate Rereads(s: Sys, s': Sys) {
    && s.pc.Rechecking?
    && s' == s.(pc := Done(!OnTrial(s.core.pending)), issued := s.issued + [GetConfig])
  }

  predicate ClientStep(req: Request, s: Sys, s': Sys) {
    || Begins(req, s, s') || Ends(s, s') || Reads(req, s, s') || ConfigureAccepted(s, s') || Redials(s, s')
    || ReadsTrial(s, s') || PromoteAccepted(s, s') || PromoteFails(s, s') || Rereads(s, s')
  }

  predicate CoreStep(s: Sys, s': Sys) {
    BenignStep(s.core, s'.core) && s' == s.(core := s'.core)
  }

  predicate Next(req: Request, s: Sys, s': Sys) {
    ClientStep(req, s, s') || CoreStep(s, s')
  }

  predicate Init(s: Sys) {
    s.pc.Idle? && s.accepted == 0 && s.issued == [] && s.start == Start(0, false)
  }

  /** Any number of runs, one after another, with Core moving in between. */
  predicate IsHistory(req: Request, h: seq<Sys>) {
    |h| > 0 && Init(h[0]) && forall i :: 0 <= i < |h| - 1 ==> Next(req, h[i], h[i + 1])
  }

  // -------------------------------------------------------------- invariants

  /** What a run has achieved at each point. */
  predicate Achieved(req: Request, s: Sys) {
    match s.pc
    case Configuring(desired) => Trusts(desired, req)
    case Redialing => Trusts(s.core.InForce(), req)
    case Confirming => Trusts(s.core.InForce(), req)
    case Promoting => Trusts(s.core.InForce(), req)
    case Rechecking => Trusts(s.core.InForce(), req)
    case Done(ok) => ok ==> s.core.Settled(req)
    case _ => true
  }

  /** One accepted configure is enough for good: from then on the config in force
      trusts the subnets, so no run has anything to apply. */
  predicate AppliedOnce(req: Request, s: Sys) {
    && s.start.accepted <= s.accepted <= 1
    && (s.accepted == 1 ==> Trusts(s.core.InForce(), req) && !s.pc.Configuring?)
    && (s.start.accepted == 1 ==> Configure !in s.issued)
  }

  /** A run that begins settled reads once and is done. */
  predicate ReadsOnly(req: Request, s: Sys) {
    s.start.settled && !s.pc.Idle? ==>
      && s.core.Settled(req)
      && (s.pc == Reading || s.pc.Done?)
      && (s.issued == [] || s.issued == [GetConfig])
      && (s.pc == Reading ==> s.issued == [])
      && (s.pc == Done(true) ==> s.issued == [GetConfig])
  }

  predicate Inv(req: Request, s: Sys) {
    Achieved(req, s) && AppliedOnce(req, s) && ReadsOnly(req, s)
  }

  lemma DecisionFollowsTrust(req: Request, core: Core)
    requires req.Valid()
    ensures Decision(req, core).Configuring? ==>
              !Trusts(core.InForce(), req) && Trusts(Decision(req, core).desired, req)
    ensures Decision(req, core).Confirming? ==> Trusts(core.InForce(), req) && OnTrial(core.pending)
    ensures Decision(req, core) == Done(true) <==> core.Settled(req)
    ensures core.Settled(req) ==> core.InForce() == core.stable
  {
    TrustsMeansUnchanged(core.InForce(), req);
    if Merging(core.InForce(), req).Merged? { MergeTrusts(core.InForce(), req); }
  }

  /** The same on the store as Core reports it. A pending config without an error, or
      with a null one, is the base, and if it trusts the subnets it is only confirmed;
      beside any other pending config, or none, the base is the confirmed one. */
  lemma DecisionOnTheStore(req: Request, core: Core)
    requires req.Valid()
    ensures core.pending.Some? && ("error" !in core.pending.value || core.pending.value["error"] == Null) ==>
              && core.InForce() == core.pending.value
              && (Trusts(core.pending.value, req) ==> Decision(req, core) == Confirming)
    ensures core.pending.None? || ("error" in core.pending.value && core.pending.value["error"] != Null) ==>
              && core.InForce() == core.stable
              && (Trusts(core.stable, req) ==> Decision(req, core) == Done(true))
    ensures !Trusts(core.InForce(), req) ==>
              Decision(req, core) == match Merging(core.InForce(), req)
                                     case Failed(_) => Done(false)
                                     case Merged(desired, _) => Configuring(desired)
  {
    hide Trusts;
    hide Merging;
    TrustsMeansUnchanged(core.InForce(), req);
  }

  lemma CoreStepKeepsInv(req: Request, s: Sys, s': Sys)
    requires Inv(req, s) && CoreStep(s, s')
    ensures Inv(req, s')
  {
    BenignKeepsTrust(s.core, s'.core, req);
  }

  lemma ReadKeepsInv(req: Request, s: Sys, s': Sys)
    requires req.Valid() && Inv(req, s) && Reads(req, s, s')
    ensures Inv(req, s')
  {
    DecisionFollowsTrust(req, s.core);
  }

  lemma ConfigureKeepsInv(req: Request, s: Sys, s': Sys)
    requires Inv(req, s) && ConfigureAccepted(s, s')
    ensures Inv(req, s')
  {
    StagedTrusts(s.core, s.pc.desired, s'.core, req);
  }

  lemma PromoteKeepsInv(req: Request, s: Sys, s': Sys)
    requires Inv(req, s) && PromoteAccepted(s, s')
    ensures Inv(req, s')
  {
    PromotedSettles(s.core, s'.core, req);
  }

  lemma StepKeepsInv(req: Request, s: Sys, s': Sys)
    requires req.Valid() && Inv(req, s) && Next(req, s, s')
    ensures Inv(req, s')
  {
    if CoreStep(s, s') {
      CoreStepKeepsInv(req, s, s');
    } else if Reads(req, s, s') {
      ReadKeepsInv(req, s, s');
    } else if ConfigureAccepted(s, s') {
      ConfigureKeepsInv(req, s, s');
    } else if PromoteAccepted(s, s') {
      PromoteKeepsInv(req, s, s');
    } else if Ends(s, s') {
      assert s.pc.Configuring? ==> s.accepted == 0;
    }
  }

  // ---------------------------------------------------------------- theorems

  lemma Extended(req: Request, h: seq<Sys>, s: Sys)
    requires IsHistory(req, h) && Next(req, h[|h| - 1], s)
    ensures IsHistory(req, h + [s])
  {
    var g := h + [s];
    forall i | 0 <= i < |g| - 1 ensures Next(req, g[i], g[i + 1]) {
      if i < |h| - 1 { assert Next(req, h[i], h[i + 1]); }
    }
  }

  lemma {:induction false} HistoryKeepsInv(req: Request, h: seq<Sys>, i: nat)
    requires req.Valid() && IsHistory(req, h) && i < |h|
    ensures Inv(req, h[i])
  {
    if i > 0 {
      HistoryKeepsInv(req, h, i - 1);
      assert Next(req, h[i - 1], h[i - 1 + 1]);
      StepKeepsInv(req, h[i - 1], h[i]);
    }
  }

  /** Success means settled: whenever a run has returned without an error, the
      confirmed config trusts every subnet and nothing is on trial, whatever Core
      did meanwhile, the lost race of confirm included. */
  lemma SuccessMeansSettled(req: Request, h: seq<Sys>, i: nat)
    requires req.Valid() && IsHistory(req, h)
    requires i < |h| && h[i].pc == Done(true)
    ensures Trusts(h[i].core.stable, req) && !OnTrial(h[i].core.pending)
    ensures var c := h[i].core.stable;
            && "use_x_forwarded_for" in c && c["use_x_forwarded_for"] == Bool(true)
            && forall k :: 0 <= k < |req.subnets| ==>
                 && req.canon(req.subnets[k]).Some? && "trusted_proxies" in c && c["trusted_proxies"].Arr?
                 && Lists(c["trusted_proxies"].items, req.canon(req.subnets[k]).value, req.canon)
    ensures h[i].core.pending.Some? ==> var p := h[i].core.pending.value; "error" in p && p["error"] != Null
  {
    hide IsHistory;
    HistoryKeepsInv(req, h, i);
    TrustsMeans(h[i].core.stable, req);
  }

  /** Resumability: over any number of runs, each cut off anywhere, Core accepts
      at most one configure command; once it has, no run issues another one, and
      once the config is settled a run reads once and writes nothing. */
  lemma Resumable(req: Request, h: seq<Sys>, i: nat)
    requires req.Valid() && IsHistory(req, h)
    requires i < |h|
    ensures h[i].accepted <= 1
    ensures h[i].accepted == 1 ==> Trusts(h[i].core.InForce(), req)
    ensures h[i].start.accepted == 1 ==> Configure !in h[i].issued
    ensures h[i].start.settled && !h[i].pc.Idle? ==> h[i].issued == [] || h[i].issued == [GetConfig]
    ensures h[i].start.settled && h[i].pc == Done(true) ==> h[i].issued == [GetConfig]
  {
    HistoryKeepsInv(req, h, i);
  }

  /** The commands Core accepted are the accepting steps of the history. */
  function AcceptedSteps(h: seq<Sys>): nat {
    if |h| < 2 then 0
    else AcceptedSteps(h[..|h| - 1]) + if ConfigureAccepted(h[|h| - 2], h[|h| - 1]) then 1 else 0
  }

  lemma {:induction false} AcceptedCounts(req: Request, h: seq<Sys>)
    requires IsHistory(req, h)
    ensures h[|h| - 1].accepted == AcceptedSteps(h)
  {
    var last := |h| - 1;
    if last > 0 {
      var init := h[..last];
      forall i | 0 <= i < |init| - 1 ensures Next(req, init[i], init[i + 1]) {
        assert Next(req, h[i], h[i + 1]);
      }
      AcceptedCounts(req, init);
      assert Next(req, h[last - 1], h[last - 1 + 1]);
    }
  }

  // --------------------------------------------------------- other settings

  /** d has all of c but what a merge may write, and c's proxies in front of its own. */
  predicate Descends(c: Config, d: Config) {
    && SameElsewhere(WithoutMeta(c), WithoutMeta(d))
    && (ProxiesOf(c).Some? ==> ProxiesOf(d).Some? && ProxiesOf(c).value <= ProxiesOf(d).value)
  }

  lemma SameSettingsDescend(c: Config, d: Config, e: Config)
    requires Descends(c, d) && SameSettings(d, e)
    ensures Descends(c, e)
  {
    MetaApart();
    assert PROXIES in d <==> PROXIES in WithoutMeta(d);
    assert PROXIES in e <==> PROXIES in WithoutMeta(e);
    assert PROXIES in d ==> d[PROXIES] == WithoutMeta(e)[PROXIES];
  }

  lemma MergeDescends(c: Config, d: Config, req: Request)
    requires Descends(c, d) && Merging(d, req).Merged?
    ensures Descends(c, Merging(d, req).config)
  {
    MergeCoverage(d, req);
    var out := Merging(d, req).config;
    assert WithoutMeta(out) == out;
  }

  /** Whatever is in force, staged or about to be staged comes from the config that
      was in force at the start. */
  predicate Kept(origin: Config, s: Sys) {
    Descends(origin, s.core.InForce()) && (s.pc.Configuring? ==> Descends(origin, s.pc.desired))
  }

  lemma StepKeepsSettings(req: Request, origin: Config, s: Sys, s': Sys)
    requires Kept(origin, s) && Next(req, s, s')
    ensures Kept(origin, s')
  {
    hide Descends;
    if CoreStep(s, s') {
      SameSettingsDescend(origin, s.core.InForce(), s'.core.InForce());
    } else if Reads(req, s, s') {
      if Merging(s.core.InForce(), req).Merged? { MergeDescends(origin, s.core.InForce(), req); }
    } else if ConfigureAccepted(s, s') {
      SameSettingsDescend(origin, s.pc.desired, s'.core.InForce());
    } else if PromoteAccepted(s, s') {
      SameSettingsDescend(origin, s.core.InForce(), s'.core.InForce());
    }
  }

  /** The user's other settings survive: over any number of runs, the config in force
      differs from the one at the start in nothing but the two keys a merge writes and
      in metadata, and the proxies listed at the start are still listed, in front. */
  lemma {:induction false} OtherSettingsSurvive(req: Request, h: seq<Sys>, i: nat)
    requires IsHistory(req, h) && i < |h|
    ensures Descends(h[0].core.InForce(), h[i].core.InForce()) && Kept(h[0].core.InForce(), h[i])
  {
    if i > 0 {
      OtherSettingsSurvive(req, h, i - 1);
      assert Next(req, h[i - 1], h[i - 1 + 1]);
      StepKeepsSettings(req, h[0].core.InForce(), h[i - 1], h[i]);
    }
  }

  // ---------------------------------------------------------------- reverts

  /** A step of Core that the theorems above exclude: the trial is reverted. */
  predicate RevertStep(s: Sys, s': Sys) {
    Reverted(s.core, s'.core) && s' == s.(core := s'.core)
  }

  /** One run, from its first read on, beside a Core that may also revert. */
  predicate IsRun(req: Request, h: seq<Sys>) {
    && |h| > 0 && h[0].pc == Reading
    && forall i :: 0 <= i < |h| - 1 ==>
         Running(h[i].pc) && (Next(req, h[i], h[i + 1]) || RevertStep(h[i], h[i + 1]))
  }

  /** Past the decision, with only the confirmation left to do. */
  predicate AwaitsTrial(pc: Pc) { pc.Redialing? || pc.Confirming? || pc.Promoting? || pc.Rechecking? }

  /** Core falls back to a config without the subnets while the run counts on them. */
  predicate Spoils(req: Request, s: Sys, s': Sys) {
    RevertStep(s, s') && AwaitsTrial(s.pc) && !Trusts(s.core.stable, req)
  }

  predicate Spoiled(req: Request, h: seq<Sys>) {
    exists i :: 0 <= i < |h| - 1 && Spoils(req, h[i], h[i + 1])
  }

  /** Where a run stands, spoiled or not. */
  predicate Stands(req: Request, s: Sys, spoiled: bool) {
    match s.pc
    case Idle => false
    case Reading => !spoiled
    case Configuring(desired) => !spoiled && Trusts(desired, req)
    case Done(ok) => ok ==> (s.core.Settled(req) <==> !spoiled)
    case _ => if spoiled then !OnTrial(s.core.pending) && !Trusts(s.core.stable, req) else Trusts(s.core.InForce(), req)
  }

  lemma RevertStands(req: Request, s: Sys, s': Sys, spoiled: bool)
    requires Stands(req, s, spoiled) && Running(s.pc) && RevertStep(s, s')
    ensures Stands(req, s', spoiled || Spoils(req, s, s'))
  {
  }

  lemma CoreStands(req: Request, s: Sys, s': Sys, spoiled: bool)
    requires Stands(req, s, spoiled) && Running(s.pc) && CoreStep(s, s')
    ensures Stands(req, s', spoiled)
  {
    BenignKeepsTrust(s.core, s'.core, req);
    if !OnTrial(s.core.pending) { assert s.core.InForce() == s.core.stable && s'.core.InForce() == s'.core.stable; }
  }

  lemma ClientStands(req: Request, s: Sys, s': Sys, spoiled: bool)
    requires req.Valid() && Stands(req, s, spoiled) && Running(s.pc) && ClientStep(req, s, s')
    ensures Stands(req, s', spoiled)
  {
    if Reads(req, s, s') {
      DecisionFollowsTrust(req, s.core);
    } else if ConfigureAccepted(s, s') {
      StagedTrusts(s.core, s.pc.desired, s'.core, req);
    } else if PromoteAccepted(s, s') {
      PromotedSettles(s.core, s'.core, req);
    }
  }

  lemma {:induction false} RunStands(req: Request, h: seq<Sys>)
    requires req.Valid() && IsRun(req, h)
    ensures Stands(req, h[|h| - 1], Spoiled(req, h))
    decreases |h|
  {
    hide Next;
    hide RevertStep;
    hide Stands;
    hide Spoils;
    var last := |h| - 1;
    if last > 0 {
      var init := h[..last];
      assert forall i :: 0 <= i < |init| ==> init[i] == h[i];
      RunStands(req, init);
      assert Running(h[last - 1].pc)
             && (Next(req, h[last - 1], h[last - 1 + 1]) || RevertStep(h[last - 1], h[last - 1 + 1]));
      SpoiledOneMore(req, h);
      StepStands(req, h[last - 1], h[last], Spoiled(req, init));
    } else {
      StartStands(req, h[0]);
    }
  }

  lemma SpoiledOneMore(req: Request, h: seq<Sys>)
    requires |h| > 1
    ensures Spoiled(req, h) <==> Spoiled(req, h[..|h| - 1]) || Spoils(req, h[|h| - 2], h[|h| - 1])
  {
    hide Spoils;
    var init := h[..|h| - 1];
    if Spoiled(req, h) {
      var i :| 0 <= i < |h| - 1 && Spoils(req, h[i], h[i + 1]);
      assert i < |h| - 2 ==> Spoils(req, init[i], init[i + 1]);
    }
    if Spoiled(req, init) {
      var i :| 0 <= i < |init| - 1 && Spoils(req, init[i], init[i + 1]);
      assert Spoils(req, h[i], h[i + 1]);
    }
    assert h[|h| - 1] == h[|h| - 2 + 1];
  }

  lemma StartStands(req: Request, s: Sys)
    requires s.pc == Reading
    ensures Stands(req, s, false)
  {
  }

  lemma StepStands(req: Request, s: Sys, s': Sys, spoiled: bool)
    requires req.Valid() && Stands(req, s, spoiled) && Running(s.pc) && (Next(req, s, s') || RevertStep(s, s'))
    ensures Stands(req, s', spoiled || Spoils(req, s, s'))
  {
    hide Stands;
    if RevertStep(s, s') {
      RevertStands(req, s, s', spoiled);
    } else {
      assert !Spoils(req, s, s');
      if CoreStep(s, s') {
        CoreStands(req, s, s', spoiled);
      } else {
        ClientStands(req, s, s', spoiled);
      }
    }
  }

  /** Success under reverts, exactly: a run that returned without an error has settled
      the subnets if and only if Core did not, between the run's decision and its end,
      revert the trial to a confirmed config that does not trust them. A trial that is
      gone when confirm reads it is reported as a success all the same. */
  lemma SettledExactly(req: Request, h: seq<Sys>)
    requires req.Valid() && IsRun(req, h) && h[|h| - 1].pc == Done(true)
    ensures h[|h| - 1].core.Settled(req) <==> !Spoiled(req, h)
  {
    RunStands(req, h);
  }

  lemma FreshMerge(req: Request, subnet: string) returns (wanted: Config)
    requires req.Valid() && req.subnets == [subnet] && req.canon(subnet) == Some(subnet)
    ensures Merging(map[], req) == Merged(wanted, true) && OnTrial(Some(wanted))
    ensures !Trusts(map[], req) && SameSettings(wanted, wanted[ERROR := Str("not_promoted")])
  {
    var empty: Config := map[];
    wanted := Merging(empty, req).config;
    assert WithoutMeta(empty) == empty && req.Wanted() == [Some(subnet)];
    MetaApart();
    MergeCoverage(empty, req);
    TrustsMeansUnchanged(empty, req);
    assert WithoutMeta(wanted[ERROR := Str("not_promoted")]) == WithoutMeta(wanted);
  }

  function ExampleRequest(): Request { SubnetsToTrust(["10.0.0.0/24"]) }

  lemma ExampleIsValid()
    ensures ExampleRequest().Valid() && ExampleRequest().canon("10.0.0.0/24") == Some("10.0.0.0/24")
    ensures ExampleRequest().subnets == ["10.0.0.0/24"]
  {
    hide Networks.Normalize;
    SubnetsToTrustIsValid(["10.0.0.0/24"]);
    Networks.ExampleSubnet();
  }

  lemma RunStarts(req: Request, s: Sys)
    requires s.pc == Reading
    ensures IsRun(req, [s]) && !Spoiled(req, [s])
  {
  }

  lemma RunGoesOn(req: Request, h: seq<Sys>, s: Sys)
    requires IsRun(req, h) && Running(h[|h| - 1].pc)
    requires ClientStep(req, h[|h| - 1], s) || RevertStep(h[|h| - 1], s)
    ensures IsRun(req, h + [s]) && (Spoiled(req, h + [s]) <==> Spoiled(req, h) || Spoils(req, h[|h| - 1], s))
  {
    hide Spoiled;
    hide Spoils;
    hide ClientStep;
    hide RevertStep;
    hide CoreStep;
    var g := h + [s];
    forall i | 0 <= i < |g| - 1 ensures Running(g[i].pc) && (Next(req, g[i], g[i + 1]) || RevertStep(g[i], g[i + 1])) {
      if i < |h| - 1 { assert Running(h[i].pc) && (Next(req, h[i], h[i + 1]) || RevertStep(h[i], h[i + 1])); }
    }
    SpoiledOneMore(req, g);
    assert g[..|g| - 1] == h;
  }

  /** A Core that knew nothing yet, with a config on trial, and after it reverted it. */
  function OnTrialWith(wanted: Config): Core { Core(map[], Some(wanted)) }

  function AfterRevert(wanted: Config): Core { Core(map[], Some(wanted[ERROR := Str("not_promoted")])) }

  lemma FreshRun(req: Request, wanted: Config) returns (h: seq<Sys>)
    requires Merging(map[], req) == Merged(wanted, true) && OnTrial(Some(wanted))
    ensures IsRun(req, h) && !Spoiled(req, h)
    ensures |h| == 3 && h[2] == Sys(OnTrialWith(wanted), Confirming, 1, [GetConfig, Configure], Start(0, false))
  {
    hide Spoiled;
    hide IsRun;
    hide Merging;
    var idle := Core(map[], None);
    var s0 := Sys(idle, Reading, 0, [], Start(0, false));
    var s1 := s0.(pc := Configuring(wanted), issued := [GetConfig]);
    var s2 := Sys(OnTrialWith(wanted), Confirming, 1, [GetConfig, Configure], Start(0, false));
    assert Reads(req, s0, s1) && ConfigureAccepted(s1, s2);
    RunStarts(req, s0);
    RunGoesOn(req, [s0], s1);
    RunGoesOn(req, [s0] + [s1], s2);
    h := [s0] + [s1] + [s2];
  }

  /** Core reverts while the run counts on the trial. */
  lemma RunSpoiled(req: Request, wanted: Config, h: seq<Sys>)
    requires h != [] && IsRun(req, h) && h[|h| - 1].core == OnTrialWith(wanted) && AwaitsTrial(h[|h| - 1].pc)
    requires OnTrial(Some(wanted)) && !Trusts(map[], req)
    requires SameSettings(wanted, wanted[ERROR := Str("not_promoted")])
    ensures var more := h + [h[|h| - 1].(core := AfterRevert(wanted))];
            IsRun(req, more) && Spoiled(req, more) && !OnTrial(more[|more| - 1].core.pending)
  {
    hide Spoiled;
    hide IsRun;
    hide Trusts;
    hide ClientStep;
    RunGoesOn(req, h, h[|h| - 1].(core := AfterRevert(wanted)));
  }

  /** A failing run of the program as it is, with a subnet as it asks for: Core reverts
      the trial before confirm reads it, which then reports success although the
      confirmed config trusts nothing. */
  lemma RevertBeforeTheRead() returns (h: seq<Sys>)
    ensures |h| == 5 && IsRun(ExampleRequest(), h) && h[4].pc == Done(true) && Spoiled(ExampleRequest(), h)
    ensures !Trusts(h[4].core.stable, ExampleRequest())
  {
    hide ExampleRequest;
    hide IsRun;
    hide Spoiled;
    hide Trusts;
    hide Merging;
    var req := ExampleRequest();
    ExampleIsValid();
    var wanted := FreshMerge(req, "10.0.0.0/24");
    h := FreshRun(req, wanted);
    RunSpoiled(req, wanted, h);
    h := h + [h[2].(core := AfterRevert(wanted))];
    var done := h[3].(pc := Done(true), issued := h[3].issued + [GetConfig]);
    assert ReadsTrial(h[3], done);
    RunGoesOn(req, h, done);
    h := h + [done];
  }

  /** And one in which it is reverted between that read and the promotion: the branch
      of confirm for a lost race reports success. */
  lemma RevertDefeatsSuccess() returns (h: seq<Sys>)
    ensures |h| == 7 && IsRun(ExampleRequest(), h) && h[6].pc == Done(true) && Spoiled(ExampleRequest(), h)
    ensures !Trusts(h[6].core.stable, ExampleRequest())
  {
    hide ExampleRequest;
    hide IsRun;
    hide Spoiled;
    hide Trusts;
    hide Merging;
    var req := ExampleRequest();
    ExampleIsValid();
    var wanted := FreshMerge(req, "10.0.0.0/24");
    h := FreshRun(req, wanted);
    var promoting := h[2].(pc := Promoting, issued := h[2].issued + [GetConfig]);
    assert ReadsTrial(h[2], promoting);
    RunGoesOn(req, h, promoting);
    h := h + [promoting];
    RunSpoiled(req, wanted, h);
    h := h + [promoting.(core := AfterRevert(wanted))];
    var rechecking := h[4].(pc := Rechecking, issued := h[4].issued + [Promote]);
    assert PromoteFails(h[4], rechecking);
    RunGoesOn(req, h, rechecking);
    h := h + [rechecking];
    var done := rechecking.(pc := Done(true), issued := rechecking.issued + [GetConfig]);
    assert Rereads(rechecking, done);
    RunGoesOn(req, h, done);
    h := h + [done];
  }

  // --------------------------------------------------------------- progress

  /** A step of a run beside a Core that answers: commands get through, a configure is
      accepted, and a promote is accepted if something is on trial. */
  predicate Answered(req: Request, s: Sys, s': Sys) {
    || Reads(req, s, s') || (ConfigureAccepted(s, s') && !s'.pc.Done?) || Redials(s, s') || ReadsTrial(s, s')
    || (PromoteAccepted(s, s') && s'.pc == Done(true)) || (PromoteFails(s, s') && !OnTrial(s.core.pending))
    || Rereads(s, s')
  }

  /** Nothing stands in the way of the run: its merge does not fail, and it is not about
      to find that promoting failed although the trial goes on. */
  predicate OnCourse(req: Request, s: Sys) {
    match s.pc
    case Idle => false
    case Reading => Merging(s.core.InForce(), req).Merged?
    case Rechecking => !OnTrial(s.core.pending)
    case Done(ok) => ok
    case _ => true
  }

  /** The answered steps a run can still take. */
  function Left(pc: Pc): nat {
    match pc
    case Idle => 7
    case Reading => 6
    case Configuring(_) => 5
    case Redialing => 4
    case Confirming => 3
    case Promoting => 2
    case Rechecking => 1
    case Done(_) => 0
  }

  /** A run on course always has an answered step to take. */
  lemma CanGoOn(req: Request, s: Sys) returns (s': Sys)
    requires OnCourse(req, s) && Running(s.pc)
    ensures Answered(req, s, s')
  {
    match s.pc
    case Reading => s' := s.(pc := Decision(req, s.core), issued := s.issued + [GetConfig]);
    case Configuring(desired) =>
      MetaApart();
      var core := s.core.(pending := Some(WithoutMeta(desired)));
      assert WithoutMeta(WithoutMeta(desired)) == WithoutMeta(desired);
      s' := Sys(core, Confirming, s.accepted + 1, s.issued + [Configure], s.start);
    case Redialing => s' := s.(pc := Confirming);
    case Confirming =>
      s' := s.(pc := if OnTrial(s.core.pending) then Promoting else Done(true), issued := s.issued + [GetConfig]);
    case Promoting =>
      if OnTrial(s.core.pending) {
        s' := s.(core := Core(s.core.pending.value, None), pc := Done(true), issued := s.issued + [Promote]);
      } else {
        s' := s.(pc := Rechecking, issued := s.issued + [Promote]);
      }
    case Rechecking => s' := s.(pc := Done(!OnTrial(s.core.pending)), issued := s.issued + [GetConfig]);
  }

  lemma AnsweredStaysOnCourse(req: Request, s: Sys, s': Sys)
    requires OnCourse(req, s) && Running(s.pc) && Answered(req, s, s')
    ensures OnCourse(req, s') && Left(s'.pc) < Left(s.pc) && |s'.issued| <= |s.issued| + 1
  {
    hide Merging;
  }

  lemma CoreStaysOnCourse(req: Request, s: Sys, s': Sys)
    requires OnCourse(req, s) && CoreStep(s, s')
    ensures OnCourse(req, s') && s'.pc == s.pc && s'.issued == s.issued
  {
    assert SameSettings(s.core.InForce(), s'.core.InForce());
    MetaDoesNotMatter(s.core.InForce(), s'.core.InForce(), req);
  }

  /** Answered steps of one run, with Core going on by itself in between. */
  predicate IsAnswered(req: Request, h: seq<Sys>) {
    |h| > 0 && forall i :: 0 <= i < |h| - 1 ==>
      CoreStep(h[i], h[i + 1]) || (Running(h[i].pc) && Answered(req, h[i], h[i + 1]))
  }

  /** The steps Core took by itself. */
  function CoreSteps(h: seq<Sys>): nat {
    if |h| < 2 then 0 else CoreSteps(h[..|h| - 1]) + if CoreStep(h[|h| - 2], h[|h| - 1]) then 1 else 0
  }

  /** Progress: beside a Core that answers, and whatever it does by itself meanwhile, a
      run on course takes at most six steps of its own, with one command each, always
      has a next one until it returns, and returns nil. */
  lemma {:induction false} AnsweredRunSucceeds(req: Request, h: seq<Sys>)
    requires IsAnswered(req, h) && OnCourse(req, h[0])
    ensures var last := h[|h| - 1];
            && OnCourse(req, last) && (last.pc.Done? ==> last.pc == Done(true))
            && (Running(last.pc) ==> exists s :: Answered(req, last, s))
            && |h| - 1 - CoreSteps(h) + Left(last.pc) <= Left(h[0].pc)
            && |last.issued| - |h[0].issued| <= |h| - 1 - CoreSteps(h)
    decreases |h|
  {
    hide OnCourse;
    hide Answered;
    hide CoreStep;
    hide Left;
    var n := |h| - 1;
    if n > 0 {
      var init := h[..n];
      forall i | 0 <= i < |init| - 1
        ensures CoreStep(init[i], init[i + 1]) || (Running(init[i].pc) && Answered(req, init[i], init[i + 1]))
      {
        assert CoreStep(h[i], h[i + 1]) || (Running(h[i].pc) && Answered(req, h[i], h[i + 1]));
      }
      AnsweredRunSucceeds(req, init);
      assert CoreStep(h[n - 1], h[n - 1 + 1]) || (Running(h[n - 1].pc) && Answered(req, h[n - 1], h[n - 1 + 1]));
      if CoreStep(h[n - 1], h[n]) {
        CoreStaysOnCourse(req, h[n - 1], h[n]);
      } else {
        AnsweredStaysOnCourse(req, h[n - 1], h[n]);
      }
    }
    OnCourseSucceeds(req, h[n]);
    if Running(h[n].pc) {
      var s := CanGoOn(req, h[n]);
    }
  }

  lemma OnCourseSucceeds(req: Request, s: Sys)
    requires OnCourse(req, s)
    ensures s.pc.Done? ==> s.pc == Done(true)
  {
  }

  /** Success is reached: against any store that the merge would change, the first run
      reads, configures, confirms and promotes, and one configure was accepted. */
  lemma FirstRunSucceeds(req: Request, core: Core) returns (h: seq<Sys>)
    requires req.Valid() && Merging(core.InForce(), req).Merged? && Merging(core.InForce(), req).changed
    ensures IsHistory(req, h) && h[0].core == core && |h| == 6
    ensures h[5].pc == Done(true) && h[5].accepted == 1 && h[5].issued == [GetConfig, Configure, GetConfig, Promote]
    ensures h[5].core.Settled(req)
  {
    hide IsHistory;
    hide Next;
    var desired := Merging(core.InForce(), req).config;
    var idle := Sys(core, Idle, 0, [], Start(0, false));
    var reading := Sys(core, Reading, 0, [], Start(0, core.Settled(req)));
    var configuring := reading.(pc := Configuring(desired), issued := [GetConfig]);
    var confirming := Sys(core.(pending := Some(desired)), Confirming, 1, [GetConfig, Configure], reading.start);
    var promoting := confirming.(pc := Promoting, issued := confirming.issued + [GetConfig]);
    var done := Sys(Core(desired, None), Done(true), 1, promoting.issued + [Promote], reading.start);
    FirstSteps(req, core, configuring, confirming, promoting, done);
    HistoryStarts(req, idle);
    ClientSteps(req, idle, reading);
    Extended(req, [idle], reading);
    Extended(req, [idle, reading], configuring);
    Extended(req, [idle, reading, configuring], confirming);
    Extended(req, [idle, reading, configuring, confirming], promoting);
    Extended(req, [idle, reading, configuring, confirming, promoting], done);
    h := [idle, reading, configuring, confirming, promoting] + [done];
  }

  /** A pending config left over from an interrupted attempt is only confirmed: if it
      trusts the subnets and shows no error, the next run reads, reads and promotes. */
  lemma LeftoverIsPromoted(req: Request, core: Core) returns (h: seq<Sys>)
    requires req.Valid() && core.pending.Some? && Trusts(core.pending.value, req)
    requires "error" !in core.pending.value || core.pending.value["error"] == Null
    ensures IsHistory(req, h) && h[0].core == core && |h| == 5
    ensures h[4].pc == Done(true) && h[4].accepted == 0 && h[4].issued == [GetConfig, GetConfig, Promote]
    ensures h[4].core == Core(core.pending.value, None) && h[4].core.Settled(req)
  {
    hide IsHistory;
    hide Next;
    hide Trusts;
    hide Decision;
    var idle := Sys(core, Idle, 0, [], Start(0, false));
    var reading := Sys(core, Reading, 0, [], Start(0, core.Settled(req)));
    var confirming := reading.(pc := Confirming, issued := [GetConfig]);
    var promoting := confirming.(pc := Promoting, issued := confirming.issued + [GetConfig]);
    var done := Sys(Core(core.pending.value, None), Done(true), 0, promoting.issued + [Promote], reading.start);
    DecisionOnTheStore(req, core);
    HistoryStarts(req, idle);
    ClientSteps(req, idle, reading);
    ClientSteps(req, reading, confirming);
    ClientSteps(req, confirming, promoting);
    ClientSteps(req, promoting, done);
    Extended(req, [idle], reading);
    Extended(req, [idle, reading], confirming);
    Extended(req, [idle, reading, confirming], promoting);
    Extended(req, [idle, reading, confirming, promoting], done);
    h := [idle, reading, confirming, promoting] + [done];
  }

  lemma HistoryStarts(req: Request, s: Sys)
    requires Init(s)
    ensures IsHistory(req, [s])
  {
  }

  lemma ClientSteps(req: Request, s: Sys, s': Sys)
    requires Begins(req, s, s') || Reads(req, s, s') || ConfigureAccepted(s, s')
             || ReadsTrial(s, s') || PromoteAccepted(s, s')
    ensures Next(req, s, s')
  {
  }

  lemma FirstSteps(req: Request, core: Core, configuring: Sys, confirming: Sys, promoting: Sys, done: Sys)
    requires req.Valid() && Merging(core.InForce(), req).Merged? && Merging(core.InForce(), req).changed
    requires var desired := Merging(core.InForce(), req).config;
             && configuring == Sys(core, Configuring(desired), 0, [GetConfig], configuring.start)
             && confirming == Sys(core.(pending := Some(desired)), Confirming, 1, [GetConfig, Configure],
                                  configuring.start)
             && promoting == confirming.(pc := Promoting, issued := confirming.issued + [GetConfig])
             && done == Sys(Core(desired, None), Done(true), 1, promoting.issued + [Promote], configuring.start)
    ensures Next(req, Sys(core, Reading, 0, [], configuring.start), configuring)
    ensures Next(req, configuring, confirming) && Next(req, confirming, promoting) && Next(req, promoting, done)
    ensures done.core.Settled(req)
  {
    MergeCoverage(core.InForce(), req);
    MergeTrusts(core.InForce(), req);
    MetaApart();
    hide Merging;
    hide Trusts;
    hide Next;
    ClientSteps(req, Sys(core, Reading, 0, [], configuring.start), configuring);
    ClientSteps(req, configuring, confirming);
    ClientSteps(req, confirming, promoting);
    ClientSteps(req, promoting, done);
  }

  // ------------------------------------------------- what the program is for

  /** After a run for the subnets of the machine has returned without an error, every
      local address that has a subnet is in a network the confirmed config trusts. */
  lemma EveryAddressIsTrusted(ips: seq<string>, h: seq<Sys>, i: nat, k: nat) returns (entry: string)
    requires IsHistory(SubnetsToTrust(Networks.SubnetsOf(ips)), h) && i < |h| && h[i].pc == Done(true)
    requires k < |ips| && Networks.SubnetOf(ips[k]).Some?
    ensures var c := h[i].core.stable;
            && "use_x_forwarded_for" in c && c["use_x_forwarded_for"] == Bool(true)
            && "trusted_proxies" in c && c["trusted_proxies"].Arr? && Str(entry) in c["trusted_proxies"].items
    ensures Networks.Normalize(entry).Some? && Networks.Addresses.ParseAddr(ips[k]).Some?
    ensures Networks.Denoted(entry).Contains(Networks.Addresses.ParseAddr(ips[k]).value)
  {
    hide IsHistory;
    hide Networks.Normalize;
    var subnets := Networks.SubnetsOf(ips);
    SubnetsToTrustIsValid(subnets);
    SuccessMeansSettled(SubnetsToTrust(subnets), h, i);
    var j := Networks.SubnetIsListed(ips, k);
    entry := TrustedNetwork(h[i].core.stable, subnets, j);
    Networks.SubnetDenotesAddress(ips[k]);
    var a := Networks.Addresses.ParseAddr(ips[k]).value;
    assert Networks.Denoted(entry).Contains(a) <==> Networks.Denoted(subnets[j]).Contains(a);
  }
}
