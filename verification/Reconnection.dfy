/** When the signaling client comes back after it lost its connection, and when its
    goroutines end (pkg/signaling/client.go). */
module Reconnection {
  import opened Strings
  import opened Signaling

  /** The run takes s to t. */
  predicate Leads(s: System, es: seq<Event>, t: System) { IsRun(s, es) && Reached(s, es) == t }

  predicate Steps(s: System, e: Event, t: System) { Enabled(s, e) && After(s, e) == t }

  lemma Then(s: System, e: Event, t: System, es: seq<Event>, u: System)
    requires Steps(s, e, t) && Leads(t, es, u)
    ensures Leads(s, [e] + es, u)
  {
    hide After;
    hide Enabled;
    OneMore(s, e, es);
  }

  lemma Here(s: System)
    ensures Leads(s, [], s)
  {
    Stays(s);
  }

  // ------------------------------------------------------ a connection lost

  lemma Overwritten(gs: map<nat, Pc>, g: nat, p: Pc, q: Pc)
    ensures gs[g := p][g := q] == gs[g := q]
  {
  }

  lemma DialSteps(s: System, g: nat, sock: Socket)
    requires g in s.goroutines && s.goroutines[g].Looping? && !s.cancelled && s.open == {}
    ensures var caller := Again(s.goroutines[g].attempt, s.goroutines[g].backoff);
            var dialling := s.(goroutines := s.goroutines[g := Dialling(caller)]);
            var dialled := s.(goroutines := s.goroutines[g := Dialled(caller, sock)], open := {sock});
            Steps(s, CheckLoop(g), dialling) && Steps(dialling, DialWorks(g, sock), dialled)
  {
    var gs, caller := s.goroutines, Again(s.goroutines[g].attempt, s.goroutines[g].backoff);
    Overwritten(gs, g, Dialling(caller), Dialled(caller, sock));
  }

  lemma StoreSteps(s: System, g: nat, caller: Caller, sock: Socket, reader: nat)
    requires g in s.goroutines && reader !in s.goroutines
    ensures var dialled := s.(goroutines := s.goroutines[g := Dialled(caller, sock)], open := {sock});
            var stored := dialled.(goroutines := s.goroutines[g := Stored(caller)], slot := Some(sock));
            var started := stored.(goroutines := s.goroutines[g := Started(caller)][reader := Reading]);
            Steps(dialled, Store(g), stored) && Steps(stored, StartReader(g, reader), started)
  {
    var gs := s.goroutines;
    Overwritten(gs, g, Dialled(caller, sock), Stored(caller));
    Overwritten(gs, g, Stored(caller), Started(caller));
  }

  /** An attempt of the loop whose dial works: the connection is stored, and a reader
      starts on it. */
  lemma AttemptWorks(s: System, g: nat, sock: Socket, reader: nat)
    requires g in s.goroutines && s.goroutines[g].Looping? && !s.cancelled && s.open == {} && reader !in s.goroutines
    ensures var caller := Again(s.goroutines[g].attempt, s.goroutines[g].backoff);
            Leads(s, [CheckLoop(g), DialWorks(g, sock), Store(g), StartReader(g, reader)],
                  s.(slot := Some(sock), open := {sock},
                     goroutines := s.goroutines[g := Started(caller)][reader := Reading]))
  {
    var gs, caller := s.goroutines, Again(s.goroutines[g].attempt, s.goroutines[g].backoff);
    var dialling := s.(goroutines := gs[g := Dialling(caller)]);
    var dialled := s.(goroutines := gs[g := Dialled(caller, sock)], open := {sock});
    var stored := dialled.(goroutines := gs[g := Stored(caller)], slot := Some(sock));
    var started := stored.(goroutines := gs[g := Started(caller)][reader := Reading]);
    DialSteps(s, g, sock);
    StoreSteps(s, g, caller, sock, reader);
    hide Steps;
    hide Leads;
    Here(started);
    Then(stored, StartReader(g, reader), started, [], started);
    Then(dialled, Store(g), stored, [StartReader(g, reader)] + [], started);
    Then(dialling, DialWorks(g, sock), dialled, [Store(g)] + ([StartReader(g, reader)] + []), started);
    Then(s, CheckLoop(g), dialling, [DialWorks(g, sock)] + ([Store(g)] + ([StartReader(g, reader)] + [])), started);
    assert [CheckLoop(g)] + ([DialWorks(g, sock)] + ([Store(g)] + ([StartReader(g, reader)] + [])))
        == [CheckLoop(g), DialWorks(g, sock), Store(g), StartReader(g, reader)];
  }

  /** What a client on its way to another attempt has open is at most what its slot holds. */
  lemma NothingElseOpen(s: System, g: nat)
    requires Inv(s) && g in s.goroutines && HasToken(s.goroutines[g]) && !s.goroutines[g].Dialled?
    ensures s.open == if s.slot.Some? then {s.slot.value} else {}
  {
    forall sock | sock in s.open ensures s.slot == Some(sock) {
      assert Accounted(s, sock);
    }
  }

  lemma GuardSteps(s: System, g: nat)
    requires Inv(s) && g in s.goroutines && s.goroutines[g] == Pending && !s.reconnecting
    ensures var guarded := s.(goroutines := s.goroutines[g := Guarded], reconnecting := true);
            && Steps(s, Guard(g), guarded)
            && Steps(guarded, Reset(g),
                     guarded.(slot := None, open := {}, goroutines := s.goroutines[g := Looping(1, 1)]))
  {
    NothingElseOpen(s, g);
    Overwritten(s.goroutines, g, Guarded, Looping(1, 1));
    hide Inv;
  }

  /** A reconnect that is let in comes back: its first dial can work, and then the slot
      holds the new connection, the old one is closed, and a new reader reads. */
  lemma ComesBack(s: System, g: nat, sock: Socket, reader: nat)
    requires Inv(s) && g in s.goroutines && s.goroutines[g] == Pending && reader !in s.goroutines
    requires !s.reconnecting && !s.cancelled
    ensures Leads(s, [Guard(g), Reset(g), CheckLoop(g), DialWorks(g, sock), Store(g), StartReader(g, reader)],
                  System(Some(sock), true, false,
                         s.goroutines[g := Started(Again(1, 1))][reader := Reading], {sock}))
  {
    hide *;
    var guarded := s.(goroutines := s.goroutines[g := Guarded], reconnecting := true);
    var looping := guarded.(slot := None, open := {}, goroutines := s.goroutines[g := Looping(1, 1)]);
    var started := System(Some(sock), true, false,
                          s.goroutines[g := Started(Again(1, 1))][reader := Reading], {sock});
    GuardSteps(s, g);
    AttemptWorks(looping, g, sock, reader);
    Overwritten(s.goroutines, g, Looping(1, 1), Started(Again(1, 1)));
    var rest := [CheckLoop(g), DialWorks(g, sock), Store(g), StartReader(g, reader)];
    assert Leads(looping, rest, started);
    Then(guarded, Reset(g), looping, rest, started);
    Then(s, Guard(g), guarded, [Reset(g)] + rest, started);
    assert [Guard(g)] + ([Reset(g)] + rest)
        == [Guard(g), Reset(g), CheckLoop(g), DialWorks(g, sock), Store(g), StartReader(g, reader)];
  }

  /** A reader whose read fails, or a first dial that does, hands over to a reconnect. */
  lemma HandsOver(s: System, g: nat, e: Event, child: nat)
    requires Inv(s) && g in s.goroutines && child !in s.goroutines
    requires (e == ReadFails(g, child) && s.goroutines[g].Holding?)
             || (e == DialFails(g, child) && s.goroutines[g] == Dialling(First))
    ensures var pending := s.(goroutines := (s.goroutines - {g})[child := Pending]);
            Steps(s, e, pending) && Inv(pending)
  {
    hide Inv;
    StepKeepsInv(s, e);
  }

  /** A lost connection comes back: unless the client is closed or an earlier reconnect is
      still about, a reader whose read fails is followed by a reconnect that can succeed;
      and so is a first dial that fails. */
  lemma LossIsRecovered(s: System, g: nat, e: Event, child: nat, sock: Socket, reader: nat)
    requires Inv(s) && g in s.goroutines && !s.cancelled && !s.reconnecting
    requires (e == ReadFails(g, child) && s.goroutines[g].Holding?)
             || (e == DialFails(g, child) && s.goroutines[g] == Dialling(First))
    requires child !in s.goroutines && reader !in s.goroutines && child != reader
    ensures Leads(s, [e, Guard(child), Reset(child), CheckLoop(child), DialWorks(child, sock), Store(child),
                      StartReader(child, reader)],
                  System(Some(sock), true, false,
                         (s.goroutines - {g})[child := Started(Again(1, 1))][reader := Reading], {sock}))
  {
    hide *;
    var pending := s.(goroutines := (s.goroutines - {g})[child := Pending]);
    HandsOver(s, g, e, child);
    ComesBack(pending, child, sock, reader);
    Overwritten(s.goroutines - {g}, child, Pending, Started(Again(1, 1)));
    var rest := [Guard(child), Reset(child), CheckLoop(child), DialWorks(child, sock), Store(child),
                 StartReader(child, reader)];
    var started := System(Some(sock), true, false,
                          (s.goroutines - {g})[child := Started(Again(1, 1))][reader := Reading], {sock});
    Then(s, e, pending, rest, started);
    assert [e] + rest == [e, Guard(child), Reset(child), CheckLoop(child), DialWorks(child, sock), Store(child),
                          StartReader(child, reader)];
  }

  lemma RetrySteps(s: System, g: nat, child: nat)
    requires Inv(s) && g in s.goroutines && s.goroutines[g].Dialling? && s.goroutines[g].caller.Again?
    requires child !in s.goroutines
    ensures var caller := s.goroutines[g].caller;
            var waiting := s.(goroutines := s.goroutines[g := Waiting(caller.attempt, caller.backoff)]);
            && Steps(s, DialFails(g, child), waiting) && s.open == {}
            && Steps(waiting, Wake(g, true),
                     s.(goroutines := s.goroutines[g := Looping(caller.attempt + 1,
                                                                if caller.backoff <= 30 then 2 * caller.backoff
                                                                else 60)]))
  {
    var caller := s.goroutines[g].caller;
    NothingElseOpen(s, g);
    assert Between(s.goroutines[g]);
    Overwritten(s.goroutines, g, Waiting(caller.attempt, caller.backoff),
                Looping(caller.attempt + 1, if caller.backoff <= 30 then 2 * caller.backoff else 60));
  }

  /** A dial of the loop that fails is followed, after the wait, by one that can work. */
  lemma FailedAttemptIsRetried(s: System, g: nat, child: nat, sock: Socket, reader: nat)
    requires Inv(s) && g in s.goroutines && s.goroutines[g].Dialling? && s.goroutines[g].caller.Again?
    requires !s.cancelled && child !in s.goroutines && reader !in s.goroutines
    ensures var caller := s.goroutines[g].caller;
            var more := Again(caller.attempt + 1, if caller.backoff <= 30 then 2 * caller.backoff else 60);
            Leads(s, [DialFails(g, child), Wake(g, true), CheckLoop(g), DialWorks(g, sock), Store(g),
                      StartReader(g, reader)],
                  System(Some(sock), s.reconnecting, false,
                         s.goroutines[g := Started(more)][reader := Reading], {sock}))
  {
    hide *;
    var caller := s.goroutines[g].caller;
    var more := Again(caller.attempt + 1, if caller.backoff <= 30 then 2 * caller.backoff else 60);
    var waiting := s.(goroutines := s.goroutines[g := Waiting(caller.attempt, caller.backoff)]);
    var looping := s.(goroutines := s.goroutines[g := Looping(more.attempt, more.backoff)]);
    var started := System(Some(sock), s.reconnecting, false,
                          s.goroutines[g := Started(more)][reader := Reading], {sock});
    RetrySteps(s, g, child);
    AttemptWorks(looping, g, sock, reader);
    Overwritten(s.goroutines, g, Looping(more.attempt, more.backoff), Started(more));
    var rest := [CheckLoop(g), DialWorks(g, sock), Store(g), StartReader(g, reader)];
    assert Leads(looping, rest, started);
    Then(waiting, Wake(g, true), looping, rest, started);
    Then(s, DialFails(g, child), waiting, [Wake(g, true)] + rest, started);
    assert [DialFails(g, child)] + ([Wake(g, true)] + rest)
        == [DialFails(g, child), Wake(g, true), CheckLoop(g), DialWorks(g, sock), Store(g), StartReader(g, reader)];
  }

  /** A connected reader reads message after message. */
  lemma ReadsOn(s: System, g: nat)
    requires g in s.goroutines && s.goroutines[g] == Reading && !s.cancelled && s.slot.Some?
    ensures Leads(s, [CheckReader(g), Load(g), Message(g)], s)
  {
    var loading := s.(goroutines := s.goroutines[g := Loading]);
    var holding := s.(goroutines := s.goroutines[g := Holding(s.slot.value)]);
    Overwritten(s.goroutines, g, Loading, Holding(s.slot.value));
    Overwritten(s.goroutines, g, Holding(s.slot.value), Reading);
    assert s.goroutines[g := Reading] == s.goroutines;
    assert Steps(s, CheckReader(g), loading) && Steps(loading, Load(g), holding) && Steps(holding, Message(g), s);
    hide *;
    Here(s);
    Then(holding, Message(g), s, [], s);
    Then(loading, Load(g), holding, [Message(g)] + [], s);
    Then(s, CheckReader(g), loading, [Load(g)] + ([Message(g)] + []), s);
    assert [CheckReader(g)] + ([Load(g)] + ([Message(g)] + [])) == [CheckReader(g), Load(g), Message(g)];
  }

  // ------------------------------------------------------- a connection given up

  /** Nobody reads, reconnects or connects, and nobody is about to. */
  predicate Deserted(s: System) {
    forall g :: g in s.goroutines ==> s.goroutines[g].Started? || s.goroutines[g].Leaving?
  }

  lemma DesertedStep(s: System, e: Event)
    requires Deserted(s) && Enabled(s, e)
    ensures Deserted(After(s, e))
  {
  }

  lemma {:induction false} StaysDeserted(s: System, es: seq<Event>)
    requires Deserted(s) && IsRun(s, es)
    ensures Deserted(Reached(s, es))
    decreases |es|
  {
    hide After;
    hide Enabled;
    hide Deserted;
    if es != [] {
      DesertedStep(s, es[0]);
      StaysDeserted(After(s, es[0]), es[1..]);
    }
  }

  lemma NobodyReads(s: System)
    requires Deserted(s)
    ensures Readers(s) == {}
  {
    forall g ensures g !in Readers(s) {}
  }

  /** A reconnect that the guard turns away leaves nobody behind. */
  lemma TurnedAway(s: System, g: nat)
    requires Inv(s) && g in s.goroutines && s.goroutines[g] == Pending && s.reconnecting
    ensures Enabled(s, Guard(g)) && Deserted(After(s, Guard(g)))
  {
    var t := After(s, Guard(g));
    forall h | h in t.goroutines ensures t.goroutines[h].Started? || t.goroutines[h].Leaving? {
      assert h != g && t.goroutines[h] == s.goroutines[h] && HasToken(s.goroutines[g]);
      assert !HasToken(s.goroutines[h]);
    }
  }

  /** Whether a lost connection can ever come back is decided at the guard: some run leads
      on to a reader if and only if no earlier reconnect still holds the flag. One that has
      just connected holds it until it returns, and a connection that breaks before that is
      given up for good. */
  lemma GuardDecides(s: System, g: nat)
    requires Inv(s) && g in s.goroutines && s.goroutines[g] == Pending && !s.cancelled
    ensures Enabled(s, Guard(g))
    ensures (exists es :: IsRun(After(s, Guard(g)), es) && Readers(Reached(After(s, Guard(g)), es)) != {})
            <==> !s.reconnecting
  {
    var t := After(s, Guard(g));
    if s.reconnecting {
      TurnedAway(s, g);
      hide *;
      forall es | IsRun(t, es) ensures Readers(Reached(t, es)) == {} {
        StaysDeserted(t, es);
        NobodyReads(Reached(t, es));
      }
    } else {
      var reader := FreshSocket(s.goroutines.Keys);
      ComesBack(s, g, 0, reader);
      CanReadAgain(s, g, reader);
    }
  }

  lemma CanReadAgain(s: System, g: nat, reader: nat)
    requires g in s.goroutines && s.goroutines[g] == Pending && !s.reconnecting
    requires Leads(s, [Guard(g), Reset(g), CheckLoop(g), DialWorks(g, 0), Store(g), StartReader(g, reader)],
                   System(Some(0), true, false, s.goroutines[g := Started(Again(1, 1))][reader := Reading], {0}))
    ensures Enabled(s, Guard(g))
    ensures exists es :: IsRun(After(s, Guard(g)), es) && Readers(Reached(After(s, Guard(g)), es)) != {}
  {
    hide After;
    var rest := [Reset(g), CheckLoop(g), DialWorks(g, 0), Store(g), StartReader(g, reader)];
    var all := [Guard(g), Reset(g), CheckLoop(g), DialWorks(g, 0), Store(g), StartReader(g, reader)];
    assert all[1..] == rest && all[0] == Guard(g);
    var t := After(s, Guard(g));
    assert IsRun(t, rest) && Reached(t, rest) == Reached(s, all);
    var last := System(Some(0), true, false, s.goroutines[g := Started(Again(1, 1))][reader := Reading], {0});
    assert last.goroutines[reader] == Reading && reader in Readers(last);
  }

  lemma {:induction false} LeadsOn(s: System, es: seq<Event>, t: System, fs: seq<Event>, u: System)
    requires Leads(s, es, t) && Leads(t, fs, u)
    ensures Leads(s, es + fs, u)
    decreases |es|
  {
    hide After;
    hide Enabled;
    if es == [] {
      assert es + fs == fs;
    } else {
      assert (es + fs)[1..] == es[1..] + fs;
      LeadsOn(After(s, es[0]), es[1..], t, fs, u);
    }
  }

  lemma LoadSteps(s: System, loop: Pc)
    requires s.goroutines == map[1 := loop, 2 := Reading] && s.slot == Some(7) && !s.cancelled
    ensures var loading := s.(goroutines := map[1 := loop, 2 := Loading]);
            && Steps(s, CheckReader(2), loading)
            && Steps(loading, Load(2), s.(goroutines := map[1 := loop, 2 := Holding(7)]))
  {
  }

  lemma BreakSteps(s: System, loop: Pc)
    requires s.reconnecting
    ensures var pending := s.(goroutines := map[1 := loop, 3 := Pending]);
            && Steps(s.(goroutines := map[1 := loop, 2 := Holding(7)]), ReadFails(2, 3), pending)
            && Steps(pending, Guard(3), s.(goroutines := map[1 := loop]))
  {
    assert map[1 := loop, 2 := Holding(7)] - {2} == map[1 := loop];
    assert map[1 := loop, 3 := Pending] - {3} == map[1 := loop];
  }

  lemma BreaksAtOnce(s: System)
    requires s == System(Some(7), true, false, map[1 := Started(Again(1, 1)), 2 := Reading], {7})
    ensures Leads(s, [CheckReader(2), Load(2), ReadFails(2, 3), Guard(3)],
                  s.(goroutines := map[1 := Started(Again(1, 1))]))
  {
    var loop := Started(Again(1, 1));
    var loading := s.(goroutines := map[1 := loop, 2 := Loading]);
    var holding := s.(goroutines := map[1 := loop, 2 := Holding(7)]);
    var pending := s.(goroutines := map[1 := loop, 3 := Pending]);
    var alone := s.(goroutines := map[1 := loop]);
    hide *;
    LoadSteps(s, loop);
    BreakSteps(s, loop);
    Here(alone);
    Then(pending, Guard(3), alone, [], alone);
    Then(holding, ReadFails(2, 3), pending, [Guard(3)] + [], alone);
    Then(loading, Load(2), holding, [ReadFails(2, 3)] + ([Guard(3)] + []), alone);
    Then(s, CheckReader(2), loading, [Load(2)] + ([ReadFails(2, 3)] + ([Guard(3)] + [])), alone);
    assert [CheckReader(2)] + ([Load(2)] + ([ReadFails(2, 3)] + ([Guard(3)] + [])))
        == [CheckReader(2), Load(2), ReadFails(2, 3), Guard(3)];
  }

  lemma LoopReturns(s: System)
    requires s == System(Some(7), true, false, map[1 := Started(Again(1, 1))], {7})
    ensures Leads(s, [Finish(1), Leave(1)], System(Some(7), false, false, map[], {7}))
  {
    var leaving := s.(goroutines := map[1 := Leaving]);
    var over := System(Some(7), false, false, map[], {7});
    assert Steps(s, Finish(1), leaving) && Steps(leaving, Leave(1), over);
    hide *;
    Here(over);
    Then(leaving, Leave(1), over, [], over);
    Then(s, Finish(1), leaving, [Leave(1)] + [], over);
    assert [Finish(1)] + ([Leave(1)] + []) == [Finish(1), Leave(1)];
  }

  lemma ConnectingIsSound()
    ensures Inv(Connecting())
  {
    assert Connecting().goroutines == map[0 := Dialling(First)];
  }

  lemma ConnectsAtLast(connected: System)
    requires connected == System(Some(7), true, false, map[1 := Started(Again(1, 1)), 2 := Reading], {7})
    ensures Leads(Connecting(), [DialFails(0, 1), Guard(1), Reset(1), CheckLoop(1), DialWorks(1, 7), Store(1),
                                 StartReader(1, 2)], connected)
  {
    var start := Connecting();
    ConnectingIsSound();
    assert start.goroutines == map[0 := Dialling(First)] && !start.cancelled && !start.reconnecting;
    hide *;
    LossIsRecovered(start, 0, DialFails(0, 1), 1, 7, 2);
    assert (start.goroutines - {0})[1 := Started(Again(1, 1))][2 := Reading] == connected.goroutines;
  }

  /** A run that ends given up: the first dial fails, the loop connects, the connection
      breaks before the loop has returned, and then no goroutine is left. The client has
      not been closed, and its slot still holds the broken connection. */
  lemma LossCanBeFinal() returns (es: seq<Event>)
    ensures es == [DialFails(0, 1), Guard(1), Reset(1), CheckLoop(1), DialWorks(1, 7), Store(1), StartReader(1, 2)]
                  + [CheckReader(2), Load(2), ReadFails(2, 3), Guard(3)] + [Finish(1), Leave(1)]
    ensures Leads(Connecting(), es, System(Some(7), false, false, map[], {7}))
  {
    hide *;
    var connected := System(Some(7), true, false, map[1 := Started(Again(1, 1)), 2 := Reading], {7});
    var alone := connected.(goroutines := map[1 := Started(Again(1, 1))]);
    var first := [DialFails(0, 1), Guard(1), Reset(1), CheckLoop(1), DialWorks(1, 7), Store(1), StartReader(1, 2)];
    var broken := [CheckReader(2), Load(2), ReadFails(2, 3), Guard(3)];
    ConnectsAtLast(connected);
    BreaksAtOnce(connected);
    LoopReturns(alone);
    LeadsOn(Connecting(), first, connected, broken, alone);
    LeadsOn(Connecting(), first + broken, alone, [Finish(1), Leave(1)], System(Some(7), false, false, map[], {7}));
    es := first + broken + [Finish(1), Leave(1)];
  }

  // ------------------------------------------------------------- winding down

  /** The steps a goroutine and those it starts can still take once the client is closed. */
  function StepsLeft(pc: Pc): nat {
    match pc
    case Leaving => 1
    case Reading => 1
    case Looping(_, _) => 2
    case Started(_) => 2
    case Guarded => 3
    case Waiting(_, _) => 3
    case Pending => 4
    case Stored(_) => 4
    case Dialled(_, _) => 5
    case Holding(_) => 5
    case Loading => 6
    case Dialling(_) => 6
  }

  /** The same for all goroutines together. */
  ghost function AllLeft(gs: map<nat, Pc>): nat {
    if gs == map[] then 0
    else
      var g :| g in gs;
      StepsLeft(gs[g]) + AllLeft(gs - {g})
  }

  lemma {:induction false} LeftSplits(gs: map<nat, Pc>, g: nat)
    requires g in gs
    ensures AllLeft(gs) == StepsLeft(gs[g]) + AllLeft(gs - {g})
    decreases gs
  {
    hide StepsLeft;
    var h :| h in gs && AllLeft(gs) == StepsLeft(gs[h]) + AllLeft(gs - {h});
    if h != g {
      LeftSplits(gs - {h}, g);
      LeftSplits(gs - {g}, h);
      assert gs - {h} - {g} == gs - {g} - {h};
    }
  }

  lemma EndedLeft(gs: map<nat, Pc>, g: nat)
    requires g in gs
    ensures AllLeft(gs - {g}) < AllLeft(gs)
  {
    LeftSplits(gs, g);
  }

  lemma MovedLeft(gs: map<nat, Pc>, g: nat, pc: Pc)
    requires g in gs
    ensures AllLeft(gs[g := pc]) == AllLeft(gs) - StepsLeft(gs[g]) + StepsLeft(pc)
  {
    LeftSplits(gs, g);
    LeftSplits(gs[g := pc], g);
    assert gs[g := pc] - {g} == gs - {g};
  }

  lemma AddedLeft(gs: map<nat, Pc>, g: nat, pc: Pc)
    requires g !in gs
    ensures AllLeft(gs[g := pc]) == AllLeft(gs) + StepsLeft(pc)
  {
    LeftSplits(gs[g := pc], g);
    assert gs[g := pc] - {g} == gs;
  }

  /** A step of some goroutine, not of Close. */
  predicate IsOwnStep(e: Event) { !e.Cancel? && !e.CloseSlot? }

  /** e ends its goroutine and starts a reconnect. */
  predicate Passes(s: System, e: Event)
    requires Enabled(s, e)
  {
    e.ReadFails? || (e.DialFails? && s.goroutines[e.g].caller.First?)
  }

  lemma PassedLeft(s: System, e: Event)
    requires Enabled(s, e) && Passes(s, e)
    ensures After(s, e).goroutines == (s.goroutines - {e.g})[e.child := Pending]
    ensures e.g in s.goroutines && e.child !in s.goroutines && StepsLeft(s.goroutines[e.g]) > 4
  {
  }

  /** Once the client is closed, a goroutine that takes another step ends or moves on to less. */
  lemma OneActs(s: System, e: Event)
    requires s.cancelled && Enabled(s, e) && IsOwnStep(e) && !e.StartReader? && !Passes(s, e)
    ensures e.g in s.goroutines
    ensures var gs, more := s.goroutines, After(s, e).goroutines;
            if e.g in more then more == gs[e.g := more[e.g]] && StepsLeft(more[e.g]) < StepsLeft(gs[e.g])
            else more == gs - {e.g}
  {
  }

  lemma StaysCancelled(s: System, e: Event)
    requires s.cancelled && Enabled(s, e)
    ensures After(s, e).cancelled
  {
  }

  lemma ClosedStepLeft(s: System, e: Event)
    requires s.cancelled && Enabled(s, e) && IsOwnStep(e)
    ensures After(s, e).cancelled && AllLeft(After(s, e).goroutines) < AllLeft(s.goroutines)
  {
    var gs, more := s.goroutines, After(s, e).goroutines;
    StaysCancelled(s, e);
    hide AllLeft;
    if e.StartReader? {
      var caller := gs[e.g].caller;
      MovedLeft(gs, e.g, Started(caller));
      AddedLeft(gs[e.g := Started(caller)], e.child, Reading);
    } else if Passes(s, e) {
      PassedLeft(s, e);
      LeftSplits(gs, e.g);
      AddedLeft(gs - {e.g}, e.child, Pending);
    } else {
      OneActs(s, e);
      hide After;
      hide Enabled;
      if e.g in more {
        MovedLeft(gs, e.g, more[e.g]);
      } else {
        EndedLeft(gs, e.g);
      }
    }
  }

  /** A goroutine that is left can always take a step. */
  lemma NobodyIsStuck(s: System, g: nat) returns (e: Event)
    requires s.cancelled && g in s.goroutines
    ensures Enabled(s, e) && IsOwnStep(e)
  {
    var child := FreshSocket(s.goroutines.Keys);
    var sock := FreshSocket(s.open);
    match s.goroutines[g]
    case Reading => e := CheckReader(g);
    case Loading => e := Load(g);
    case Holding(_) => e := Message(g);
    case Pending => e := Guard(g);
    case Guarded => e := Reset(g);
    case Looping(_, _) => e := CheckLoop(g);
    case Waiting(_, _) => e := Wake(g, false);
    case Dialling(_) => e := DialWorks(g, sock);
    case Dialled(_, _) => e := Store(g);
    case Stored(_) => e := StartReader(g, child);
    case Started(_) => e := Finish(g);
    case Leaving => e := Leave(g);
  }

  /** The steps of goroutines in a run. */
  function OwnSteps(es: seq<Event>): nat {
    if es == [] then 0 else (if IsOwnStep(es[0]) then 1 else 0) + OwnSteps(es[1..])
  }

  lemma OtherStepLeft(s: System, e: Event)
    requires s.cancelled && Enabled(s, e) && !IsOwnStep(e)
    ensures After(s, e).cancelled && After(s, e).goroutines == s.goroutines
  {
  }

  /** Once the client is closed its goroutines wind down: however they interleave, also
      with Close, they take no more steps than were left, and while one of them lives it
      can go on. */
  lemma {:induction false} WindsDown(s: System, es: seq<Event>)
    requires s.cancelled && IsRun(s, es)
    ensures OwnSteps(es) + AllLeft(Reached(s, es).goroutines) <= AllLeft(s.goroutines)
    ensures Reached(s, es).cancelled
    ensures Reached(s, es).goroutines != map[] ==> exists e :: Enabled(Reached(s, es), e) && IsOwnStep(e)
    decreases |es|
  {
    hide After;
    hide Enabled;
    hide IsOwnStep;
    hide AllLeft;
    if es == [] {
      if s.goroutines != map[] {
        var g :| g in s.goroutines;
        var e := NobodyIsStuck(s, g);
      }
    } else {
      if IsOwnStep(es[0]) {
        ClosedStepLeft(s, es[0]);
      } else {
        OtherStepLeft(s, es[0]);
      }
      WindsDown(After(s, es[0]), es[1..]);
    }
  }

  lemma NothingLeft(gs: map<nat, Pc>)
    ensures AllLeft(gs) == 0 <==> gs == map[]
  {
    if gs != map[] {
      var g :| g in gs;
      LeftSplits(gs, g);
    }
  }
}
