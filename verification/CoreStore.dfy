/** Home Assistant Core as the reconciliation sees it: a store holding the last
    confirmed http configuration and one slot for a configuration on trial
    (pkg/haaddon/httpstore.go). */
module CoreStore {
  import opened Strings
  import opened HttpConfig

  datatype Core = Core(stable: Config, pending: Option<Config>) {
    /** The config Core runs or is about to run, and the base of a merge: the one
        on trial, else the confirmed one. A failed trial is never applied again. */
    function InForce(): Config {
      if OnTrial(pending) then pending.value else stable
    }

    /** Nothing on trial, and the confirmed config trusts the subnets. */
    predicate Settled(req: Request) {
      !OnTrial(pending) && Trusts(stable, req)
    }
  }

  /** Equal but for the fields Core maintains itself. */
  predicate SameSettings(c: Config, d: Config) { WithoutMeta(c) == WithoutMeta(d) }

  // ------------------------------------------------------- what commands do

  /** configure: the config is put on trial, with whatever metadata Core adds. */
  predicate Staged(s: Core, config: Config, s': Core) {
    s'.stable == s.stable && OnTrial(s'.pending) && SameSettings(s'.pending.value, config)
  }

  /** promote: the config on trial becomes the confirmed one. */
  predicate Promoted(s: Core, s': Core) {
    OnTrial(s.pending) && s'.pending.None? && SameSettings(s'.stable, s.pending.value)
  }

  // ---------------------------------------------------- what Core does alone

  /** Metadata may come and go, as long as a trial stays a trial. */
  predicate Relabelled(s: Core, s': Core) {
    && SameSettings(s.stable, s'.stable)
    && s.pending.Some? == s'.pending.Some?
    && (s.pending.Some? ==> SameSettings(s.pending.value, s'.pending.value))
    && OnTrial(s.pending) == OnTrial(s'.pending)
  }

  /** A restart drops a staged config that equals the confirmed one. */
  predicate DroppedAsEqual(s: Core, s': Core) {
    OnTrial(s.pending) && SameSettings(s.pending.value, s.stable) && s' == s.(pending := None)
  }

  /** A failed config may be forgotten. */
  predicate FailureForgotten(s: Core, s': Core) {
    !OnTrial(s.pending) && s' == s.(pending := None)
  }

  /** Restarting, relabelling, and someone else confirming the trial. */
  predicate BenignStep(s: Core, s': Core) {
    Relabelled(s, s') || DroppedAsEqual(s, s') || FailureForgotten(s, s') || Promoted(s, s')
  }

  /** The trial ends unconfirmed: its config keeps an error. */
  predicate Reverted(s: Core, s': Core) {
    && OnTrial(s.pending) && s'.stable == s.stable && s'.pending.Some?
    && SameSettings(s.pending.value, s'.pending.value) && !OnTrial(s'.pending)
  }

  // ------------------------------------------------------------- invariance

  /** However Core goes on by itself, the settings in force stay the same. */
  lemma BenignKeepsTrust(s: Core, s': Core, req: Request)
    requires BenignStep(s, s')
    ensures Trusts(s.InForce(), req) <==> Trusts(s'.InForce(), req)
    ensures s.Settled(req) ==> s'.Settled(req)
  {
    assert SameSettings(s.InForce(), s'.InForce());
    MetaDoesNotMatter(s.InForce(), s'.InForce(), req);
    if !OnTrial(s.pending) { MetaDoesNotMatter(s.stable, s'.stable, req); }
  }

  lemma StagedTrusts(s: Core, config: Config, s': Core, req: Request)
    requires Staged(s, config, s') && Trusts(config, req)
    ensures Trusts(s'.InForce(), req)
  {
    MetaDoesNotMatter(s'.pending.value, config, req);
  }

  lemma PromotedSettles(s: Core, s': Core, req: Request)
    requires Promoted(s, s') && Trusts(s.InForce(), req)
    ensures s'.Settled(req)
  {
    MetaDoesNotMatter(s'.stable, s.pending.value, req);
  }
}
