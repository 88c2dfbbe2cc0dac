/** The reconciliation in the program's own form: connections that are opened and
    closed, commands sent over them, and one run of configureTrustedProxies
    (pkg/haaddon/client.go, pkg/haaddon/httpstore.go). Every run is shown to be a
    stretch of a history of TrustProtocol, whose theorems then apply to it. */
module Reconciler {
  import opened Strings
  import opened HttpConfig
  import opened CoreStore
  import opened TrustProtocol
  import Calls

  datatype Error = NoToken | Unreachable | AuthRejected | Protocol | NotRunning | BadConfig(error: MergeError)
    | TimedOut(last: Option<Error>)

  const SUPERVISOR_HOST := "supervisor"
  const SUPERVISOR_FALLBACK_HOST := "172.30.32.2"

  const POLL_INTERVAL: nat := 3
  const POLL_TIMEOUT: nat := 180

  /** A dial of one address, and the error it ended with if it did. */
  datatype Dialled = Dialled(host: string, error: Option<Error>)

  /** Everything outside the program: Core's store, the open connections, the
      clock, the history of what happened so far, the dials, and the failure that the
      program was told of last. */
  class World {
    var core: Core
    var open: nat
    var peak: nat
    var now: nat
    ghost var history: seq<Sys>
    ghost var dials: seq<Dialled>
    ghost var reported: Option<Error>

    ghost predicate Valid(req: Request)
      reads this
    {
      IsHistory(req, history) && Last().core == core && open <= peak
    }

    ghost function Last(): Sys
      reads this
      requires |history| > 0
    {
      history[|history| - 1]
    }

    constructor (req: Request, core: Core)
      ensures Valid(req) && this.core == core && open == peak == 0
      ensures |history| == 1
    {
      this.core := core;
      open, peak, now := 0, 0, 0;
      history := [Sys(core, Idle, 0, [], Start(0, false))];
      dials, reported := [], None;
    }

    /** Core goes on by itself for a while. */
    method Drift(req: Request)
      requires Valid(req)
      modifies `core, `history
      ensures Valid(req) && old(history) <= history && Last() == old(Last()).(core := core)
    {
      var n: int := *;
      while n > 0
        invariant Valid(req) && old(history) <= history && Last() == old(Last()).(core := core)
      {
        var core': Core := *;
        if BenignStep(core, core') {
          assert CoreStep(Last(), Last().(core := core'));
          Extended(req, history, Last().(core := core'));
          history := history + [Last().(core := core')];
          core := core';
        }
        n := n - 1;
      }
    }

    /** Records a step of the run that leaves the store as it is. */
    ghost method Record(req: Request, s: Sys)
      requires Valid(req) && ClientStep(req, Last(), s) && s.core == core
      modifies `history
      ensures Valid(req) && history == old(history) + [s] && Last() == s
    {
      Extended(req, history, s);
      history := history + [s];
    }

    // ------------------------------------------------ what Core answers

    /** http/config, as the first command of a run. */
    method GetConfig(req: Request) returns (state: Option<Core>)
      requires Valid(req) && Last().pc.Reading?
      modifies `core, `history, `reported
      ensures Valid(req) && old(history) <= history
      ensures Last().pc == if state.Some? then Decision(req, state.value) else Done(false)
      ensures if state.Some? then state.value == core else reported == Some(Protocol)
    {
      Drift(req);
      if * {
        Record(req, Last().(pc := Done(false)));
        state, reported := None, Some(Protocol);
      } else {
        Record(req, Last().(pc := Decision(req, core), issued := Last().issued + [Command.GetConfig]));
        state := Some(core);
      }
    }

    /** http/config again: whether something is on trial. */
    method PendingOnTrial(req: Request) returns (onTrial: Option<bool>)
      requires Valid(req) && (Last().pc.Confirming? || Last().pc.Rechecking?)
      modifies `core, `history, `reported
      ensures Valid(req) && old(history) <= history
      ensures if onTrial.None? then reported == Some(Protocol) else reported == old(reported)
      ensures Last().pc == if onTrial.None? then Done(false)
                           else if onTrial.value then (if old(Last()).pc.Confirming? then Promoting else Done(false))
                           else Done(true)
      ensures onTrial.Some? ==>
                (onTrial.value <==>
                  && core.pending.Some?
                  && ("error" !in core.pending.value || core.pending.value["error"] == Null))
    {
      Drift(req);
      if * {
        Record(req, Last().(pc := Done(false)));
        onTrial, reported := None, Some(Protocol);
      } else {
        var next := if Last().pc.Confirming? && OnTrial(core.pending) then Promoting else Done(!OnTrial(core.pending));
        Record(req, Last().(pc := next, issued := Last().issued + [Command.GetConfig]));
        onTrial := Some(OnTrial(core.pending));
      }
    }

    /** http/config/configure: restart on success, else the reason. */
    method Configure(req: Request, desired: Config) returns (restart: Option<bool>, error: Error)
      requires Valid(req) && Last().pc == Configuring(desired)
      modifies `core, `history, `reported
      ensures Valid(req) && old(history) <= history
      ensures restart.None? ==> reported == Some(error) && (error.NotRunning? || error.Protocol?)
      ensures Last().pc == if restart.None? then Done(false) else if restart.value then Redialing else Confirming
    {
      Drift(req);
      var pending: Option<Config>, lost: bool, restarts: bool, busy: bool := *, *, *, *;
      error := if busy then NotRunning else Protocol;
      reported := Some(error);
      if Staged(core, desired, core.(pending := pending)) {
        ghost var next := if lost then Done(false) else if restarts then Redialing else Confirming;
        core := core.(pending := pending);
        ghost var s := Sys(core, next, Last().accepted + 1, Last().issued + [Command.Configure], Last().start);
        assert ConfigureAccepted(Last(), s);
        Extended(req, history, s);
        history := history + [s];
        restart := if lost then None else Some(restarts);
      } else {
        Record(req, Last().(pc := Done(false), issued := Last().issued + [Command.Configure]));
        restart := None;
      }
    }

    /** http/config/promote. */
    method Promote(req: Request) returns (ok: bool)
      requires Valid(req) && Last().pc.Promoting?
      modifies `core, `history, `reported
      ensures Valid(req) && old(history) <= history
      ensures !ok ==> reported == Some(Protocol)
      ensures Last().pc == if ok then Done(true) else Rechecking
    {
      Drift(req);
      var stable: Config, lost: bool := *, *;
      if Promoted(core, Core(stable, None)) {
        core := Core(stable, None);
        ghost var s := Last().(core := core, pc := if lost then Rechecking else Done(true),
                               issued := Last().issued + [Command.Promote]);
        assert PromoteAccepted(Last(), s);
        Extended(req, history, s);
        history := history + [s];
        ok := !lost;
      } else {
        Record(req, Last().(pc := Rechecking, issued := Last().issued + [Command.Promote]));
        ok := false;
      }
      reported := if ok then reported else Some(Protocol);
    }

    /** Time passes, by d and by whatever the work takes beyond that. */
    method Pass(d: nat)
      modifies `now
      ensures now >= old(now) + d
    {
      var more: int := *;
      now := now + d + if more > 0 then more else 0;
    }
  }

  /** An authenticated connection to Core; `conn` is whether it is still open. */
  class HaClient {
    const world: World
    var conn: bool

    constructor (world: World)
      modifies world`open, world`peak
      ensures this.world == world && conn
      ensures world.open == old(world.open) + 1
      ensures world.peak == if old(world.peak) < world.open then world.open else old(world.peak)
    {
      this.world := world;
      this.conn := true;
      new;
      world.open := world.open + 1;
      world.peak := if world.peak < world.open then world.open else world.peak;
    }
  }

  /** close: harmless on a nil or already closed client. */
  method Close(client: HaClient?, world: World)
    requires client != null && client.conn ==> client.world == world && world.open > 0
    modifies world`open, client
    ensures client != null ==> !client.conn
    ensures world.open == old(world.open) - if client != null && old(client.conn) then 1 else 0
  {
    if client == null || !client.conn { return; }
    world.open := world.open - 1;
    client.conn := false;
  }

  /** The connections held: `extra` more than before, and never two at a time. */
  twostate predicate Holds(world: World, extra: nat)
    reads world
  {
    && world.open == old(world.open) + extra
    && (world.peak == old(world.peak) || world.peak == old(world.open) + 1)
    && world.peak >= old(world.peak)
  }

  predicate IsDialError(e: Error) { e.Unreachable? || e.AuthRejected? || e.Protocol? }

  method DialHost(world: World, host: string) returns (client: HaClient?, error: Error)
    requires world.open <= world.peak
    modifies world`open, world`peak, world`now, world`dials, world`reported
    ensures var end := if client != null then None else Some(error);
            world.dials == old(world.dials) + [Dialled(host, end)] && (client == null ==> world.reported == end)
    ensures client == null ==> IsDialError(error)
    ensures client != null ==> fresh(client) && client.conn && client.world == world
    ensures Holds(world, if client != null then 1 else 0) && world.open <= world.peak
    ensures world.now >= old(world.now)
  {
    client, error := null, Unreachable;
    world.Pass(0);
    var reached: bool, authenticated: bool, rejected: bool := *, *, *;
    if reached {
      client := new HaClient(world);
      if !authenticated {
        Close(client, world);
        client, error := null, if rejected then AuthRejected else Protocol;
      }
    }
    world.reported := if client == null then Some(error) else world.reported;
    world.dials := world.dials + [Dialled(host, if client == null then Some(error) else None)];
  }

  /** The addresses tried by one dial: the name of Supervisor, and then its number, unless
      the first attempt got through or met a rejected token. */
  ghost predicate TriesBoth(tried: seq<Dialled>) {
    && 1 <= |tried| <= 2 && tried[0].host == "supervisor"
    && (|tried| == 2 <==> tried[0].error.Some? && !tried[0].error.value.AuthRejected?)
    && (|tried| == 2 ==> tried[1].host == "172.30.32.2")
  }

  /** dialHA: both addresses in turn, but a rejected token ends it. */
  method Dial(world: World) returns (client: HaClient?, error: Error)
    requires world.open <= world.peak
    modifies world`open, world`peak, world`now, world`dials, world`reported
    ensures old(world.dials) <= world.dials
    ensures var tried := world.dials[|old(world.dials)|..];
            TriesBoth(tried) && tried[|tried| - 1].error == if client != null then None else Some(error)
    ensures client == null ==> world.reported == Some(error) && IsDialError(error)
    ensures client != null ==> fresh(client) && client.conn && client.world == world
    ensures Holds(world, if client != null then 1 else 0) && world.open <= world.peak
    ensures world.now >= old(world.now)
  {
    client, error := DialHost(world, SUPERVISOR_HOST);
    if client != null || error.AuthRejected? { return; }
    client, error := DialHost(world, SUPERVISOR_FALLBACK_HOST);
  }

  /** redialHA: waits before each attempt, and gives up within the time limit of
      its own and of its caller. */
  method Redial(world: World, deadline: nat) returns (client: HaClient?, error: Error, dials: nat)
    requires world.open <= world.peak
    modifies world`open, world`peak, world`now, world`dials, world`reported
    ensures client != null ==> fresh(client) && client.conn && client.world == world
    ensures Holds(world, if client != null then 1 else 0) && world.open <= world.peak
    ensures dials <= 60 && world.now >= old(world.now)
    ensures client == null ==> error.TimedOut? && (error.last.None? <==> dials == 0)
    ensures client == null && dials > 0 ==> error.last == world.reported && IsDialError(error.last.value)
    ensures client == null ==>
              world.now + 3 >= if deadline < old(world.now) + 180 then deadline else old(world.now) + 180
  {
    ghost var start := world.now;
    var limit := if deadline < world.now + POLL_TIMEOUT then deadline else world.now + POLL_TIMEOUT;
    var last: Option<Error> := None;
    dials := 0;
    while true
      invariant Holds(world, 0) && world.open <= world.peak
      invariant world.now >= start + POLL_INTERVAL * dials
      invariant dials > 0 ==> start + POLL_INTERVAL * dials <= limit
      invariant last.None? <==> dials == 0
      invariant dials > 0 ==> last == world.reported && IsDialError(last.value)
      decreases POLL_TIMEOUT / POLL_INTERVAL - dials
    {
      // The timer and the deadline race when they fall on the same instant.
      var tie: bool := *;
      if world.now + POLL_INTERVAL > limit || (world.now + POLL_INTERVAL == limit && tie) {
        return null, TimedOut(last), dials;
      }
      world.now := world.now + POLL_INTERVAL;
      client, error := Dial(world);
      dials := dials + 1;
      if client != null { return; }
      last := Some(error);
    }
  }

  method Confirm(world: World, req: Request) returns (error: Option<Error>)
    requires world.Valid(req) && world.Last().pc.Confirming?
    modifies world`core, world`history, world`reported
    ensures world.Valid(req) && old(world.history) <= world.history
    ensures world.Last().pc == Done(error.None?)
    ensures error.Some? ==> error == world.reported == Some(Protocol)
  {
    var onTrial := world.PendingOnTrial(req);
    if onTrial.None? { return Some(Protocol); }
    if !onTrial.value { return None; }
    var promoted := world.Promote(req);
    if !promoted {
      var again := world.PendingOnTrial(req);
      if again.Some? && !again.value { return None; }
      return Some(Protocol);
    }
    return None;
  }

  /** What an error of a run says: the failure the program was told of last, or that the
      time for redialling was over, which keeps the last failure of a dial. */
  ghost predicate Explains(e: Error, reported: Option<Error>) {
    match e
    case NoToken => false
    case BadConfig(_) => false
    case TimedOut(None) => true
    case TimedOut(Some(last)) => reported == Some(last) && IsDialError(last)
    case _ => reported == Some(e)
  }

  /** Applies a changed config: configure, wait out the restart, confirm. */
  method Apply(world: World, req: Request, first: HaClient, desired: Config, deadline: nat)
    returns (error: Option<Error>, client: HaClient?)
    requires world.Valid(req) && world.Last().pc == Configuring(desired)
    requires first.conn && first.world == world && world.open > 0
    modifies world, first
    ensures world.Valid(req) && old(world.history) <= world.history
    ensures world.Last().pc == Done(error.None?)
    ensures client != null ==> (client == first || fresh(client)) && client.world == world
    ensures world.open == old(world.open) - (if client != null && client.conn then 0 else 1)
    ensures old(world.peak) <= world.peak && (world.peak == old(world.peak) || world.peak == old(world.open))
    ensures world.now >= old(world.now)
    ensures error.Some? ==> Explains(error.value, world.reported)
  {
    client := first;
    var restart, reason := world.Configure(req, desired);
    if restart.None? { return Some(reason), client; }
    if restart.value {
      Close(client, world);
      var dials;
      client, reason, dials := Redial(world, deadline);
      if client == null {
        world.Record(req, world.Last().(pc := Done(false)));
        return Some(reason), null;
      }
      world.Record(req, world.Last().(pc := Confirming));
    }
    error := Confirm(world, req);
  }

  /** The run between the dial and the deferred close. */
  method RunConnected(world: World, req: Request, first: HaClient, deadline: nat)
    returns (error: Option<Error>, client: HaClient?)
    requires world.Valid(req) && world.Last().pc.Reading?
    requires first.conn && first.world == world && world.open > 0
    modifies world, first
    ensures world.Valid(req) && old(world.history) <= world.history
    ensures world.Last().pc == Done(error.None?)
    ensures client != null ==> (client == first || fresh(client)) && client.world == world
    ensures world.open == old(world.open) - (if client != null && client.conn then 0 else 1)
    ensures old(world.peak) <= world.peak && (world.peak == old(world.peak) || world.peak == old(world.open))
    ensures world.now >= old(world.now)
    ensures error.Some? ==>
              if error.value.BadConfig? then Merging(world.core.InForce(), req) == Failed(error.value.error)
              else Explains(error.value, world.reported)
  {
    client := first;
    var state := world.GetConfig(req);
    if state.None? { return Some(Protocol), client; }

    var base := state.value.stable;
    var onTrial := OnTrial(state.value.pending);
    if onTrial {
      base := state.value.pending.value;
    }

    var merge := WithTrustedProxies(base, req);
    if merge.Failed? { return Some(BadConfig(merge.error)), client; }
    if !merge.changed {
      if !onTrial { return None, client; }
      error := Confirm(world, req);
      return error, client;
    }
    error, client := Apply(world, req, first, merge.config, deadline);
  }

  /** One run. However it ends, its connections are closed, it held one at a time,
      and a nil error means that the subnets are trusted for good. */
  method ConfigureTrustedProxies(world: World, req: Request, token: bool, deadline: nat) returns (error: Option<Error>)
    requires req.Valid() && world.Valid(req) && !Running(world.Last().pc)
    modifies world
    ensures world.Valid(req) && old(world.history) <= world.history
    ensures world.Last().pc == Done(error.None?)
    ensures Holds(world, 0) && world.now >= old(world.now)
    ensures error.None? ==> world.core.Settled(req)
    ensures !token ==> error == Some(NoToken) && world.dials == old(world.dials)
    ensures error.Some? && token ==>
              if error.value.BadConfig? then Merging(world.core.InForce(), req) == Failed(error.value.error)
              else Explains(error.value, world.reported)
  {
    ghost var begun := world.Last().(issued := [], start := Start(world.Last().accepted, world.core.Settled(req)));
    if !token {
      world.Record(req, begun.(pc := Done(false)));
      return Some(NoToken);
    }
    var client, reason := Dial(world);
    if client == null {
      world.Record(req, begun.(pc := Done(false)));
      return Some(reason);
    }
    world.Record(req, begun.(pc := Reading));
    error, client := RunConnected(world, req, client, deadline);
    Close(client, world);
    HistoryKeepsInv(req, world.history, |world.history| - 1);
  }

  /** Whether an error says that Home Assistant is not there yet, at the top or wrapped
      by a redial that ran out of time. */
  predicate NotThereYet(e: Error) {
    e.Unreachable? || e.NotRunning? || (e.TimedOut? && e.last.Some? && NotThereYet(e.last.value))
  }

  /** Which errors are worth another run: Core is out of reach or still starting, at once
      or by the end of a redial. */
  lemma RetriesExactly()
    ensures NotThereYet(Unreachable) && NotThereYet(NotRunning)
    ensures !NotThereYet(NoToken) && !NotThereYet(AuthRejected) && !NotThereYet(Protocol)
    ensures forall reason :: !NotThereYet(BadConfig(reason))
    ensures !NotThereYet(TimedOut(None)) && forall last :: NotThereYet(TimedOut(Some(last))) <==> NotThereYet(last)
  {
  }

  /** One run as an attempt: its duration counts from when it could have started. */
  method AttemptRun(world: World, req: Request, token: bool, deadline: nat, due: nat)
    returns (attempt: Calls.Attempt<Error>)
    requires req.Valid() && world.Valid(req) && world.history != [] && !Running(world.Last().pc) && due <= world.now
    modifies world
    ensures world.Valid(req) && old(world.history) <= world.history && world.history != []
    ensures world.Last().pc.Done? && world.Last().accepted <= 1
    ensures Holds(world, 0) && world.now == due + attempt.duration
    ensures attempt.error.None? ==> world.core.Settled(req)
  {
    var error := ConfigureTrustedProxies(world, req, token, deadline);
    AcceptsOnce(req, world.history);
    attempt := Calls.Attempt(world.now - due, error);
  }

  /** One turn of the loop: a run, and then the end, or the wait before the next one. */
  method Turn(world: World, req: Request, token: bool, deadline: nat, start: nat, limit: int, elapsed: nat,
              ghost attempts: seq<Calls.Attempt<Error>>)
    returns (attempt: Calls.Attempt<Error>, next: nat, over: Option<Calls.Outcome<Error>>)
    requires req.Valid() && world.Valid(req) && world.history != [] && !Running(world.Last().pc)
    requires Calls.Retrying(attempts, NotThereYet, limit) && elapsed == Calls.StartAfter(attempts)
    requires start + elapsed <= world.now
    modifies world
    ensures world.Valid(req) && old(world.history) <= world.history && world.history != []
    ensures world.Last().pc.Done? && world.Last().accepted <= 1
    ensures world.open == old(world.open) && old(world.peak) <= world.peak
    ensures world.peak == old(world.peak) || world.peak == old(world.open) + 1
    ensures next == elapsed + attempt.duration + 10 == Calls.StartAfter(attempts + [attempt])
    ensures over.None? ==> Calls.Retrying(attempts + [attempt], NotThereYet, limit) && next <= limit
    ensures over.None? ==> start + next <= world.now
    ensures over.Some? ==> Calls.Retried(attempts + [attempt], NotThereYet, limit, over.value)
    ensures over.Some? ==> Calls.EndsWith(attempts + [attempt], NotThereYet, over.value)
    ensures over.Some? && limit <= 600 ==> |attempts + [attempt]| <= 61
    ensures over == Some(Calls.Returned(None)) ==> world.core.Settled(req)
  {
    hide Calls.Retrying;
    hide Calls.Retried;
    hide Calls.EndsWith;
    hide Calls.StartAfter;
    hide IsHistory;
    hide Trusts;
    hide NotThereYet;
    attempt := AttemptRun(world, req, token, if limit < 0 then deadline else start + limit, start + elapsed);
    next := elapsed + attempt.duration + Calls.RETRY_INTERVAL;
    var tie: bool := *;
    over := Calls.AfterAttempt(attempts, attempt, NotThereYet, limit, next, tie);
    if over.None? { world.Pass(Calls.RETRY_INTERVAL); }
  }

  /** reconcileTrustedProxies: the loop of Calls.WhenReady, here around runs that change
      the world, and held to the same specification. All the runs are stretches of one
      history, so they make Core accept one configure command at most; and nil means
      settled. */
  method ReconcileTrustedProxies(world: World, req: Request, token: bool, deadline: nat)
    returns (outcome: Calls.Outcome<Error>, attempts: seq<Calls.Attempt<Error>>)
    requires req.Valid() && world.Valid(req) && !Running(world.Last().pc)
    modifies world
    ensures world.Valid(req) && old(world.history) <= world.history && world.Last().pc.Done?
    ensures world.Last().accepted <= 1
    ensures world.open == old(world.open) && old(world.peak) <= world.peak
    ensures world.peak == old(world.peak) || world.peak == old(world.open) + 1
    ensures outcome == Calls.Returned(None) ==> world.core.Settled(req)
    ensures var limit := Calls.Min(deadline - old(world.now), Calls.RETRY_TIMEOUT);
            Calls.Retried(attempts, NotThereYet, limit, outcome)
    ensures 1 <= |attempts| <= 61 && Calls.EndsWith(attempts, NotThereYet, outcome)
  {
    assert world.history != [];
    hide *;
    var start := world.now;
    var limit := Calls.Min(deadline - start, Calls.RETRY_TIMEOUT);
    attempts := [];
    var elapsed := 0;
    Calls.NoAttempts(NotThereYet, limit);
    AtMostTimeout(deadline - start);
    while true
      invariant world.Valid(req) && old(world.history) <= world.history
      invariant world.history != [] && !Running(world.Last().pc)
      invariant world.open == old(world.open) && old(world.peak) <= world.peak
      invariant world.peak == old(world.peak) || world.peak == old(world.open) + 1
      invariant Calls.Retrying(attempts, NotThereYet, limit) && elapsed == Calls.StartAfter(attempts)
      invariant 10 * |attempts| <= elapsed && start + elapsed <= world.now
      invariant attempts != [] ==> elapsed <= limit
      decreases 601 - 10 * |attempts|
    {
      var attempt, next, over := Turn(world, req, token, deadline, start, limit, elapsed, attempts);
      DoneIsNotRunning(world.Last().pc);
      attempts, elapsed := attempts + [attempt], next;
      if over.Some? { return over.value, attempts; }
    }
  }

  lemma AtMostTimeout(a: int)
    ensures Calls.Min(a, Calls.RETRY_TIMEOUT) <= a && Calls.Min(a, Calls.RETRY_TIMEOUT) <= 600
    ensures Calls.RETRY_TIMEOUT == 600
  {
  }

  lemma DoneIsNotRunning(pc: Pc)
    ensures pc.Done? ==> !Running(pc)
  {
  }

  lemma AcceptsOnce(req: Request, h: seq<Sys>)
    requires req.Valid() && IsHistory(req, h)
    ensures h[|h| - 1].accepted <= 1
  {
    Resumable(req, h, |h| - 1);
  }
}
