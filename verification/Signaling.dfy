/** The signaling client's goroutines as interleaved steps (pkg/signaling/client.go).
    A step is a stretch of code between two points where another goroutine can be
    seen: a lock section, a check of the context, a dial, a read. */
module Signaling {
  import opened Strings

  type Socket = nat

  /** Who runs connectOnce: Connect itself, or the loop of reconnect. */
  datatype Caller = First | Again(attempt: nat, backoff: nat)

  /** Where a goroutine stands. */
  datatype Pc =
    | Reading                                // readMessages, before the check of the context
    | Loading                                // ... before it copies the slot
    | Holding(sock: Socket)                  // ... in ReadMessage or in a handler
    | Pending                                // reconnect, before the guard
    | Guarded                                // ... with the flag, before it drops the connection
    | Looping(attempt: nat, backoff: nat)    // ... before the check of the context
    | Waiting(attempt: nat, backoff: nat)    // ... between two attempts
    | Dialling(caller: Caller)                   // connectOnce
    | Dialled(caller: Caller, made: Socket)     // ... before it stores the connection
    | Stored(caller: Caller)                     // ... running the onConnect handlers
    | Started(caller: Caller)                    // ... with the new reader running
    | Leaving                                // reconnect, before it clears the flag

  /** The client's fields, its live goroutines, and the websockets that were opened
      and not closed. */
  datatype System = System(slot: Option<Socket>, reconnecting: bool, cancelled: bool,
                           goroutines: map<nat, Pc>, open: set<Socket>)

  datatype Event =
    | CheckReader(g: nat) | Load(g: nat) | Message(g: nat) | ReadFails(g: nat, child: nat)
    | Guard(g: nat) | Reset(g: nat) | CheckLoop(g: nat) | Wake(g: nat, byTimer: bool) | Leave(g: nat)
    | DialFails(g: nat, child: nat) | DialWorks(g: nat, sock: Socket) | Store(g: nat) | StartReader(g: nat, child: nat)
    | Finish(g: nat) | Cancel | CloseSlot

  /** Connect has set the context up and is about to dial. */
  function Connecting(): System { System(None, false, false, map[0 := Dialling(First)], {}) }

  predicate At(s: System, g: nat, pc: Pc) { g in s.goroutines && s.goroutines[g] == pc }

  predicate New(s: System, child: nat) { child !in s.goroutines }

  predicate Enabled(s: System, e: Event) {
    match e
    case CheckReader(g) => At(s, g, Reading)
    case Load(g) => At(s, g, Loading)
    case Message(g) => g in s.goroutines && s.goroutines[g].Holding?
    case ReadFails(g, child) => g in s.goroutines && s.goroutines[g].Holding? && New(s, child)
    case Guard(g) => At(s, g, Pending)
    case Reset(g) => At(s, g, Guarded)
    case CheckLoop(g) => g in s.goroutines && s.goroutines[g].Looping?
    case Wake(g, byTimer) => g in s.goroutines && s.goroutines[g].Waiting? && (byTimer || s.cancelled)
    case Leave(g) => At(s, g, Leaving)
    case DialFails(g, child) => g in s.goroutines && s.goroutines[g].Dialling? && New(s, child)
    case DialWorks(g, sock) => g in s.goroutines && s.goroutines[g].Dialling? && sock !in s.open
    case Store(g) => g in s.goroutines && s.goroutines[g].Dialled?
    case StartReader(g, child) => g in s.goroutines && s.goroutines[g].Stored? && New(s, child)
    case Finish(g) => g in s.goroutines && s.goroutines[g].Started?
    case Cancel => true
    case CloseSlot => s.cancelled
  }

  function Min(a: nat, b: nat): nat { if a < b then a else b }

  function Ended(s: System, g: nat): System { s.(goroutines := s.goroutines - {g}) }

  function Moved(s: System, g: nat, pc: Pc): System { s.(goroutines := s.goroutines[g := pc]) }

  /** g ends by starting another goroutine. */
  function Passed(s: System, g: nat, child: nat, pc: Pc): System {
    s.(goroutines := (s.goroutines - {g})[child := pc])
  }

  function Dropped(s: System): System {
    s.(slot := None, open := if s.slot.Some? then s.open - {s.slot.value} else s.open)
  }

  function After(s: System, e: Event): System
    requires Enabled(s, e)
  {
    match e
    case CheckReader(g) => if s.cancelled then Ended(s, g) else Moved(s, g, Loading)
    case Load(g) => if s.slot.None? then Ended(s, g) else Moved(s, g, Holding(s.slot.value))
    case Message(g) => Moved(s, g, Reading)
    case ReadFails(g, child) => Passed(s, g, child, Pending)
    case Guard(g) => if s.reconnecting then Ended(s, g) else Moved(s, g, Guarded).(reconnecting := true)
    case Reset(g) => Moved(Dropped(s), g, Looping(1, 1))
    case CheckLoop(g) =>
      var pc := s.goroutines[g];
      Moved(s, g, if s.cancelled then Leaving else Dialling(Again(pc.attempt, pc.backoff)))
    case Wake(g, byTimer) =>
      var pc := s.goroutines[g];
      Moved(s, g, if byTimer then Looping(pc.attempt + 1, Min(2 * pc.backoff, 60)) else Leaving)
    case Leave(g) => Ended(s, g).(reconnecting := false)
    case DialFails(g, child) =>
      (match s.goroutines[g].caller
       case First => Passed(s, g, child, Pending)
       case Again(attempt, backoff) => Moved(s, g, Waiting(attempt, backoff)))
    case DialWorks(g, sock) => Moved(s, g, Dialled(s.goroutines[g].caller, sock)).(open := s.open + {sock})
    case Store(g) => Moved(s, g, Stored(s.goroutines[g].caller)).(slot := Some(s.goroutines[g].made))
    case StartReader(g, child) => Moved(Moved(s, g, Started(s.goroutines[g].caller)), child, Reading)
    case Finish(g) => if s.goroutines[g].caller.First? then Ended(s, g) else Moved(s, g, Leaving)
    case Cancel => s.(cancelled := true)
    case CloseSlot => Dropped(s)
  }

  // ---------------------------------------------------------- the invariant

  predicate IsReader(pc: Pc) { pc.Reading? || pc.Loading? || pc.Holding? }

  /** Past the guard of reconnect. */
  predicate Inside(pc: Pc) {
    match pc
    case Reading => false
    case Loading => false
    case Holding(_) => false
    case Pending => false
    case Guarded => true
    case Looping(_, _) => true
    case Waiting(_, _) => true
    case Dialling(caller) => caller.Again?
    case Dialled(caller, _) => caller.Again?
    case Stored(caller) => caller.Again?
    case Started(caller) => caller.Again?
    case Leaving => true
  }

  /** What the goroutines pass on from one to the next, and never copy. */
  predicate HasToken(pc: Pc) { !pc.Started? && !pc.Leaving? }

  /** Between dropping the old connection and storing the new one. */
  predicate Between(pc: Pc) { pc.Looping? || pc.Waiting? || pc.Dialling? || pc.Dialled? }

  /** The wait before an attempt: doubled each time, and at most a minute. */
  function Delay(attempt: nat): nat {
    if attempt <= 1 then 1 else Min(2 * Delay(attempt - 1), 60)
  }

  predicate BacksOff(pc: Pc) {
    match pc
    case Looping(attempt, backoff) => attempt >= 1 && backoff == Delay(attempt)
    case Waiting(attempt, backoff) => attempt >= 1 && backoff == Delay(attempt)
    case Dialling(Again(attempt, backoff)) => attempt >= 1 && backoff == Delay(attempt)
    case _ => true
  }

  /** A socket is open because the client holds it, or is about to. */
  predicate Accounted(s: System, sock: Socket) {
    s.slot == Some(sock) || exists g :: g in s.goroutines && s.goroutines[g].Dialled? && s.goroutines[g].made == sock
  }

  predicate OneToken(s: System) {
    forall g, h ::
      g in s.goroutines && h in s.goroutines && HasToken(s.goroutines[g]) && HasToken(s.goroutines[h]) ==> g == h
  }

  predicate OneInside(s: System) {
    forall g, h ::
      g in s.goroutines && h in s.goroutines && Inside(s.goroutines[g]) && Inside(s.goroutines[h]) ==> g == h
  }

  predicate SomeInside(s: System) { exists g :: g in s.goroutines && Inside(s.goroutines[g]) }

  /** The flag is set while somebody is past the guard, and only then. */
  predicate FlagTells(s: System) { s.reconnecting <==> SomeInside(s) }

  predicate Sockets(s: System) {
    && (forall g :: g in s.goroutines && Between(s.goroutines[g]) ==> s.slot.None?)
    && (forall g :: g in s.goroutines && s.goroutines[g].Dialled? ==> s.goroutines[g].made in s.open)
    && (s.slot.Some? ==> s.slot.value in s.open)
    && (forall sock :: sock in s.open ==> Accounted(s, sock))
  }

  predicate Delays(s: System) { forall g :: g in s.goroutines ==> BacksOff(s.goroutines[g]) }

  predicate Inv(s: System) { OneToken(s) && OneInside(s) && FlagTells(s) && Sockets(s) && Delays(s) }

  lemma TokensStep(s: System, e: Event)
    requires OneToken(s) && Enabled(s, e)
    ensures OneToken(After(s, e))
  {
  }

  /** Only the guard lets anybody in. */
  lemma WasInside(s: System, e: Event, g: nat)
    requires Enabled(s, e) && g in After(s, e).goroutines && Inside(After(s, e).goroutines[g])
    ensures (g in s.goroutines && Inside(s.goroutines[g])) || (e == Guard(g) && !s.reconnecting)
  {
  }

  lemma InsideStep(s: System, e: Event)
    requires OneInside(s) && FlagTells(s) && Enabled(s, e)
    ensures OneInside(After(s, e))
  {
    var t := After(s, e);
    hide After;
    hide Enabled;
    hide Inside;
    forall g | g in t.goroutines && Inside(t.goroutines[g])
      ensures (g in s.goroutines && Inside(s.goroutines[g])) || (e == Guard(g) && !s.reconnecting)
    {
      WasInside(s, e, g);
    }
  }

  /** Whoever is inside stays until the step that leaves. */
  lemma StaysInside(s: System, e: Event, g: nat)
    requires Enabled(s, e) && g in s.goroutines && Inside(s.goroutines[g]) && e != Leave(g)
    ensures g in After(s, e).goroutines && Inside(After(s, e).goroutines[g])
  {
  }

  lemma FlagChanges(s: System, e: Event)
    requires Enabled(s, e)
    ensures After(s, e).reconnecting == if e.Guard? then true else if e.Leave? then false else s.reconnecting
    ensures e.Guard? && !s.reconnecting ==> At(After(s, e), e.g, Guarded)
    ensures e.Leave? ==> At(s, e.g, Leaving) && e.g !in After(s, e).goroutines
  {
  }

  lemma FlagStep(s: System, e: Event)
    requires OneInside(s) && FlagTells(s) && Enabled(s, e)
    ensures FlagTells(After(s, e))
  {
    var t := After(s, e);
    FlagChanges(s, e);
    forall g | g in t.goroutines && Inside(t.goroutines[g])
      ensures (g in s.goroutines && Inside(s.goroutines[g])) || (e == Guard(g) && !s.reconnecting)
    {
      WasInside(s, e, g);
    }
    if s.reconnecting {
      var g :| g in s.goroutines && Inside(s.goroutines[g]);
      if e != Leave(g) { StaysInside(s, e, g); }
    }
    hide After;
    hide Enabled;
  }

  lemma SlotStep(s: System, e: Event)
    requires OneToken(s) && Sockets(s) && Enabled(s, e)
    ensures var t := After(s, e);
            && (forall g :: g in t.goroutines && Between(t.goroutines[g]) ==> t.slot.None?)
            && (forall g :: g in t.goroutines && t.goroutines[g].Dialled? ==> t.goroutines[g].made in t.open)
            && (t.slot.Some? ==> t.slot.value in t.open)
  {
    hide Accounted;
  }

  lemma AccountedStep(s: System, e: Event, sock: Socket)
    requires Enabled(s, e) && sock in After(s, e).open && (sock in s.open ==> Accounted(s, sock))
    requires e.Store? ==> s.slot.None?
    ensures Accounted(After(s, e), sock)
  {
    var t := After(s, e);
    if e.DialWorks? && sock == e.sock {
      assert t.goroutines[e.g].Dialled?;
    } else if s.slot != Some(sock) {
      var g :| g in s.goroutines && s.goroutines[g].Dialled? && s.goroutines[g].made == sock;
      if e != Store(g) { assert t.goroutines[g].Dialled? && t.goroutines[g].made == sock; }
    }
  }

  lemma DelayMore(attempt: nat)
    requires attempt >= 1
    ensures Delay(attempt + 1) == Min(2 * Delay(attempt), 60) && Delay(1) == 1
  {
  }

  lemma DelaysStep(s: System, e: Event)
    requires Delays(s) && Enabled(s, e)
    ensures Delays(After(s, e))
  {
    hide Delay;
    if e.Wake? { DelayMore(s.goroutines[e.g].attempt); }
    DelayMore(1);
  }

  /** Every step keeps the invariant. */
  lemma StepKeepsInv(s: System, e: Event)
    requires Inv(s) && Enabled(s, e)
    ensures Inv(After(s, e))
  {
    hide After;
    hide OneToken;
    hide OneInside;
    hide FlagTells;
    hide Delays;
    hide Accounted;
    TokensStep(s, e);
    InsideStep(s, e);
    FlagStep(s, e);
    SlotStep(s, e);
    forall sock | sock in After(s, e).open ensures Accounted(After(s, e), sock) { AccountedStep(s, e, sock); }
    DelaysStep(s, e);
  }

  // ------------------------------------------------------------------ runs

  /** A run: any interleaving, each step enabled where it is taken. */
  predicate IsRun(s: System, es: seq<Event>)
    decreases |es|
  {
    es == [] || (Enabled(s, es[0]) && IsRun(After(s, es[0]), es[1..]))
  }

  function Reached(s: System, es: seq<Event>): System
    requires IsRun(s, es)
    decreases |es|
  {
    if es == [] then s else Reached(After(s, es[0]), es[1..])
  }

  lemma RunKeepsInv(s: System, es: seq<Event>)
    requires Inv(s) && IsRun(s, es)
    ensures Inv(Reached(s, es))
    decreases |es|
  {
    hide After;
    hide Inv;
    hide Enabled;
    if es != [] {
      StepKeepsInv(s, es[0]);
      RunKeepsInv(After(s, es[0]), es[1..]);
    }
  }

  function Readers(s: System): set<nat> { set g | g in s.goroutines && IsReader(s.goroutines[g]) }

  function Insiders(s: System): set<nat> { set g | g in s.goroutines && Inside(s.goroutines[g]) }

  /** Over every run of one Connect: at most one goroutine is past the guard of
      reconnect, and the flag says whether one is; at most one reader is alive; at most
      one websocket is open, and it is the one in the slot unless it was just dialled. */
  lemma SingleFlight(es: seq<Event>)
    requires IsRun(Connecting(), es)
    ensures var s := Reached(Connecting(), es);
            && |Readers(s)| <= 1 && |Insiders(s)| <= 1 && |s.open| <= 1
            && (s.reconnecting <==> Insiders(s) != {})
            && (s.slot.Some? ==> s.open == {s.slot.value})
  {
    RunKeepsInv(Connecting(), es);
    hide Reached;
    hide IsRun;
    InvMeans(Reached(Connecting(), es));
  }

  lemma OneReader(s: System)
    requires OneToken(s)
    ensures |Readers(s)| <= 1
  {
    assert forall g, h :: g in Readers(s) && h in Readers(s) ==> g == h;
    AtMostOne(Readers(s));
  }

  lemma OneInsider(s: System)
    requires OneInside(s)
    ensures |Insiders(s)| <= 1
  {
    assert forall g, h :: g in Insiders(s) && h in Insiders(s) ==> g == h;
    AtMostOne(Insiders(s));
  }

  lemma InvMeans(s: System)
    requires Inv(s)
    ensures |Readers(s)| <= 1 && |Insiders(s)| <= 1 && |s.open| <= 1
    ensures (s.reconnecting <==> Insiders(s) != {}) && (s.slot.Some? ==> s.open == {s.slot.value})
  {
    hide OneToken;
    hide OneInside;
    hide SomeInside;
    hide Readers;
    hide Insiders;
    hide Accounted;
    hide Delays;
    OneReader(s);
    OneInsider(s);
    InsidersTell(s);
    OpenIsOne(s);
    AtMostOne(s.open);
  }

  lemma {:induction false} DelayInSeconds(attempt: nat)
    requires attempt >= 1
    ensures Delay(attempt) == if attempt <= 6 then [1, 2, 4, 8, 16, 32][attempt - 1] else 60
  {
    if attempt > 1 { DelayInSeconds(attempt - 1); }
  }

  /** Over every run, the wait after the n-th failed attempt is the n-th of 1, 2, 4,
      8, 16, 32 seconds, and a minute from the seventh on. */
  lemma WaitsOfRun(es: seq<Event>, g: nat)
    requires IsRun(Connecting(), es)
    requires g in Reached(Connecting(), es).goroutines && Reached(Connecting(), es).goroutines[g].Waiting?
    ensures var pc := Reached(Connecting(), es).goroutines[g];
            pc.attempt >= 1 && pc.backoff == if pc.attempt <= 6 then [1, 2, 4, 8, 16, 32][pc.attempt - 1] else 60
  {
    RunKeepsInv(Connecting(), es);
    DelayInSeconds(Reached(Connecting(), es).goroutines[g].attempt);
  }

  lemma InsidersTell(s: System)
    ensures SomeInside(s) <==> Insiders(s) != {}
  {
    if SomeInside(s) {
      var g :| g in s.goroutines && Inside(s.goroutines[g]);
      assert g in Insiders(s);
    }
  }

  lemma OpenIsOne(s: System)
    requires OneToken(s) && Sockets(s)
    ensures forall a, b :: a in s.open && b in s.open ==> a == b
  {
    forall a, b | a in s.open && b in s.open ensures a == b {
      assert Accounted(s, a) && Accounted(s, b);
    }
  }

  lemma AtMostOne<T>(xs: set<T>)
    requires forall a, b :: a in xs && b in xs ==> a == b
    ensures |xs| <= 1
  {
    if xs != {} {
      var x :| x in xs;
      assert xs == {x};
    }
  }

  // ----------------------------------------------------------------- closing

  /** Close has run, and a connection attempt is still under way. */
  predicate InFlight(s: System) {
    exists g :: g in s.goroutines && (s.goroutines[g].Dialling? || s.goroutines[g].Dialled?)
  }

  predicate Closed(s: System) { s.cancelled && s.slot.None? }

  lemma ClosedStep(s: System, e: Event)
    requires Closed(s) && !InFlight(s) && s.open == {} && Enabled(s, e)
    ensures var t := After(s, e); Closed(t) && !InFlight(t) && t.open == {}
  {
  }

  lemma StaysClosed(s: System, es: seq<Event>)
    requires Closed(s) && !InFlight(s) && s.open == {} && IsRun(s, es)
    ensures Reached(s, es).open == {}
    decreases |es|
  {
    hide After;
    hide Enabled;
    hide InFlight;
    if es != [] {
      ClosedStep(s, es[0]);
      StaysClosed(After(s, es[0]), es[1..]);
    }
  }

  lemma FreshSocket(open: set<Socket>) returns (sock: Socket)
    ensures sock !in open
  {
    sock := 0;
    var rest := open;
    while sock in rest
      invariant forall x :: x in open && x >= sock ==> x in rest
      decreases rest
    {
      rest := rest - {sock};
      sock := sock + 1;
    }
  }

  lemma Stays(s: System)
    ensures IsRun(s, []) && Reached(s, []) == s
  {
  }

  lemma OneStep(s: System, e: Event)
    requires Enabled(s, e)
    ensures IsRun(s, [e]) && Reached(s, [e]) == After(s, e)
  {
  }

  /** After Close no websocket is ever open again if and only if Close did not
      overtake a connection attempt: an attempt past its check of the context still
      stores what it dialled, and nothing closes that. */
  lemma CloseIsFinalExactly(s: System)
    requires Inv(s) && Closed(s)
    ensures (forall es :: IsRun(s, es) ==> Reached(s, es).open == {}) <==> !InFlight(s)
  {
    if InFlight(s) {
      var g :| g in s.goroutines && (s.goroutines[g].Dialling? || s.goroutines[g].Dialled?);
      if s.goroutines[g].Dialled? {
        Stays(s);
        assert s.goroutines[g].made in s.open;
      } else {
        var sock := FreshSocket(s.open);
        var e := DialWorks(g, sock);
        OneStep(s, e);
        assert Reached(s, [e]).open != {};
      }
    } else {
      forall es | IsRun(s, es) ensures Reached(s, es).open == {} {
        assert forall sock :: sock in s.open ==> Accounted(s, sock);
        StaysClosed(s, es);
      }
    }
  }

  lemma OneMore(s: System, e: Event, es: seq<Event>)
    requires Enabled(s, e) && IsRun(After(s, e), es)
    ensures IsRun(s, [e] + es) && Reached(s, [e] + es) == Reached(After(s, e), es)
  {
    assert ([e] + es)[1..] == es;
  }

  lemma LateDial()
    ensures var start := Connecting();
            var closed := start.(cancelled := true);
            var dialled := closed.(goroutines := map[0 := Dialled(First, 7)], open := {7});
            && Enabled(start, Cancel) && After(start, Cancel) == closed
            && Enabled(closed, CloseSlot) && After(closed, CloseSlot) == closed
            && Enabled(closed, DialWorks(0, 7)) && After(closed, DialWorks(0, 7)) == dialled
  {
  }

  lemma LateStore(dialled: System)
    requires dialled.goroutines == map[0 := Dialled(First, 7)]
    ensures var stored := dialled.(goroutines := map[0 := Stored(First)], slot := Some(7));
            && Enabled(dialled, Store(0)) && After(dialled, Store(0)) == stored
            && Enabled(stored, StartReader(0, 1))
            && After(stored, StartReader(0, 1)) == stored.(goroutines := map[0 := Started(First), 1 := Reading])
  {
  }

  lemma LateEnd(started: System)
    requires started.goroutines == map[0 := Started(First), 1 := Reading] && started.cancelled
    ensures var alone := started.(goroutines := map[1 := Reading]);
            && Enabled(started, Finish(0)) && After(started, Finish(0)) == alone
            && Enabled(alone, CheckReader(1)) && After(alone, CheckReader(1)) == alone.(goroutines := map[])
  {
  }

  lemma LateRunEnds(stored: System)
    requires stored.goroutines == map[0 := Stored(First)] && stored.cancelled
    requires Enabled(stored, StartReader(0, 1))
    requires After(stored, StartReader(0, 1)) == stored.(goroutines := map[0 := Started(First), 1 := Reading])
    ensures IsRun(stored, [StartReader(0, 1), Finish(0), CheckReader(1)])
    ensures Reached(stored, [StartReader(0, 1), Finish(0), CheckReader(1)]) == stored.(goroutines := map[])
  {
    var started := stored.(goroutines := map[0 := Started(First), 1 := Reading]);
    LateEnd(started);
    hide After;
    hide Enabled;
    hide IsRun;
    hide Reached;
    Stays(stored.(goroutines := map[]));
    OneMore(stored.(goroutines := map[1 := Reading]), CheckReader(1), []);
    OneMore(started, Finish(0), [CheckReader(1)]);
    OneMore(stored, StartReader(0, 1), [Finish(0), CheckReader(1)]);
    assert [CheckReader(1)] + [] == [CheckReader(1)];
    assert [Finish(0)] + [CheckReader(1)] == [Finish(0), CheckReader(1)];
    assert [StartReader(0, 1)] + [Finish(0), CheckReader(1)] == [StartReader(0, 1), Finish(0), CheckReader(1)];
  }

  /** Close runs while Connect still dials; the dial succeeds, every goroutine ends, and
      the websocket stays open. */
  lemma LateDialStaysOpen() returns (es: seq<Event>)
    ensures es == [Cancel, CloseSlot, DialWorks(0, 7), Store(0), StartReader(0, 1), Finish(0), CheckReader(1)]
    ensures IsRun(Connecting(), es)
    ensures Reached(Connecting(), es).goroutines == map[] && Reached(Connecting(), es).open == {7}
  {
    var start := Connecting();
    var closed := start.(cancelled := true);
    var dialled := closed.(goroutines := map[0 := Dialled(First, 7)], open := {7});
    var stored := dialled.(goroutines := map[0 := Stored(First)], slot := Some(7));
    LateDial();
    LateStore(dialled);
    hide After;
    hide Enabled;
    hide IsRun;
    hide Reached;
    LateRunEnds(stored);
    es := [StartReader(0, 1), Finish(0), CheckReader(1)];
    OneMore(dialled, Store(0), es);
    OneMore(closed, DialWorks(0, 7), [Store(0)] + es);
    OneMore(closed, CloseSlot, [DialWorks(0, 7)] + ([Store(0)] + es));
    OneMore(start, Cancel, [CloseSlot] + ([DialWorks(0, 7)] + ([Store(0)] + es)));
    es := [Cancel] + ([CloseSlot] + ([DialWorks(0, 7)] + ([Store(0)] + es)));
  }

  // --------------------------------------------------------- the scheduler

  /** A turn of the scheduler: who runs, and what the world answers. */
  datatype Tick = Tick(g: nat, child: nat, fails: bool, timer: bool, dialled: Option<Socket>)

  function ReadStep(s: System, g: nat, fails: bool, child: nat): Event
    requires g in s.goroutines && IsReader(s.goroutines[g])
  {
    match s.goroutines[g]
    case Reading => CheckReader(g)
    case Loading => Load(g)
    case Holding(_) => if fails then ReadFails(g, child) else Message(g)
  }

  /** A waiting goroutine wakes by its timer, or once cancelled by either. */
  function ReconnectStep(s: System, g: nat, timer: bool): (e: Option<Event>)
    requires g in s.goroutines
    ensures e.Some? ==> Enabled(s, e.value)
  {
    match s.goroutines[g]
    case Pending => Some(Guard(g))
    case Guarded => Some(Reset(g))
    case Looping(_, _) => Some(CheckLoop(g))
    case Waiting(_, _) => Some(Wake(g, timer || !s.cancelled))
    case Leaving => Some(Leave(g))
    case _ => None
  }

  predicate Connects(pc: Pc) { pc.Dialling? || pc.Dialled? || pc.Stored? || pc.Started? }

  function ConnectStep(pc: Pc, g: nat, dialled: Option<Socket>, child: nat): Event
    requires Connects(pc)
  {
    match pc
    case Dialling(_) => if dialled.Some? then DialWorks(g, dialled.value) else DialFails(g, child)
    case Dialled(_, _) => Store(g)
    case Stored(_) => StartReader(g, child)
    case Started(_) => Finish(g)
  }

  /** The step a tick makes; none for a goroutine that does not exist, or with a
      number in use for the new goroutine or socket. */
  function EventOf(s: System, t: Tick): (e: Option<Event>)
    ensures e.Some? ==> Enabled(s, e.value)
  {
    if t.g !in s.goroutines || t.child in s.goroutines || (t.dialled.Some? && t.dialled.value in s.open) then None
    else
      var pc := s.goroutines[t.g];
      if IsReader(pc) then Some(ReadStep(s, t.g, t.fails && pc.Holding?, t.child))
      else if Connects(pc) then Some(ConnectStep(pc, t.g, t.dialled, t.child))
      else ReconnectStep(s, t.g, t.timer)
  }

  function Ticked(s: System, t: Tick): System {
    var e := EventOf(s, t);
    if e.None? then s else After(s, e.value)
  }

  function Scheduled(s: System, ticks: seq<Tick>): System
    decreases |ticks|
  {
    if ticks == [] then s else Scheduled(Ticked(s, ticks[0]), ticks[1..])
  }

  lemma TickKeepsInv(s: System, t: Tick)
    requires Inv(s)
    ensures Inv(Ticked(s, t)) && Ticked(s, t).cancelled == s.cancelled
  {
    hide Inv;
    hide EventOf;
    var e := EventOf(s, t);
    if e.Some? { StepKeepsInv(s, e.value); }
    TickCancelsNothing(s, t);
  }

  lemma TickCancelsNothing(s: System, t: Tick)
    ensures Ticked(s, t).cancelled == s.cancelled
  {
  }

  lemma {:induction false} ScheduleCancelsNothing(s: System, ticks: seq<Tick>)
    ensures Scheduled(s, ticks).cancelled == s.cancelled
    decreases |ticks|
  {
    hide Ticked;
    if ticks != [] {
      TickCancelsNothing(s, ticks[0]);
      ScheduleCancelsNothing(Ticked(s, ticks[0]), ticks[1..]);
    }
  }

  lemma CancelKeepsInv(s: System)
    requires Inv(s)
    ensures Inv(s.(cancelled := true))
  {
    StepKeepsInv(s, Cancel);
  }

  lemma DropKeepsInv(s: System)
    requires Inv(s) && s.cancelled
    ensures Inv(Dropped(s))
  {
    StepKeepsInv(s, CloseSlot);
  }

  // ------------------------------------------------------------ the client

  /** The client object; goroutines and open are what the Go runtime and the network
      keep for it. */
  class Client {
    var conn: Option<Socket>
    var reconnecting: bool
    var cancelled: bool
    var goroutines: map<nat, Pc>
    var open: set<Socket>

    function State(): System
      reads this
    {
      System(conn, reconnecting, cancelled, goroutines, open)
    }

    constructor ()
      ensures State() == Connecting()
    {
      conn, reconnecting, cancelled, open := None, false, false, {};
      goroutines := map[0 := Dialling(First)];
    }

    /** The guard of reconnect. */
    method Enter() returns (entered: bool)
      modifies `reconnecting
      ensures entered == !old(reconnecting) && reconnecting
    {
      if reconnecting { return false; }
      reconnecting := true;
      return true;
    }

    /** The lock section of reconnect, and that of Close. */
    method Drop()
      modifies `conn, `open
      ensures State() == Dropped(old(State()))
    {
      if conn.Some? {
        open := open - {conn.value};
        conn := None;
      }
    }

    /** What the loop of reconnect does after an attempt that failed, woken by its timer
        or by the cancelled context. */
    method BackOff(g: nat, attempt: nat, backoff: nat, byTimer: bool)
      modifies `goroutines
      ensures State() == Moved(old(State()), g, if byTimer then Looping(attempt + 1, Min(2 * backoff, 60)) else Leaving)
    {
      if !byTimer {
        goroutines := goroutines[g := Leaving];
        return;
      }
      var longer := backoff * 2;
      if longer > 60 { longer := 60; }
      goroutines := goroutines[g := Looping(attempt + 1, longer)];
    }

    /** readMessages, up to the next point where another goroutine can be seen. */
    method Read(g: nat, fails: bool, child: nat)
      requires g in goroutines && IsReader(goroutines[g]) && (fails ==> goroutines[g].Holding? && child !in goroutines)
      modifies `goroutines
      ensures State() == After(old(State()), ReadStep(old(State()), g, fails, child))
    {
      match goroutines[g]
      case Reading =>
        if cancelled {
          goroutines := goroutines - {g};
        } else {
          goroutines := goroutines[g := Loading];
        }
      case Loading =>
        if conn.None? {
          goroutines := goroutines - {g};
        } else {
          goroutines := goroutines[g := Holding(conn.value)];
        }
      case Holding(_) =>
        if fails {
          goroutines := (goroutines - {g})[child := Pending];
        } else {
          goroutines := goroutines[g := Reading];
        }
    }

    /** reconnect, outside of connectOnce. */
    method Reconnect(g: nat, timer: bool)
      requires g in goroutines && ReconnectStep(State(), g, timer).Some?
      modifies this
      ensures State() == After(old(State()), ReconnectStep(old(State()), g, timer).value)
    {
      match goroutines[g]
      case Pending =>
        var entered := Enter();
        if entered {
          goroutines := goroutines[g := Guarded];
        } else {
          goroutines := goroutines - {g};
        }
      case Guarded =>
        Drop();
        goroutines := goroutines[g := Looping(1, 1)];
      case Looping(attempt, backoff) =>
        goroutines := goroutines[g := if cancelled then Leaving else Dialling(Again(attempt, backoff))];
      case Waiting(attempt, backoff) =>
        BackOff(g, attempt, backoff, timer || !cancelled);
      case Leaving =>
        reconnecting := false;
        goroutines := goroutines - {g};
    }

    /** connectOnce, with the outcome of the dial; a failed first attempt starts the
        loop in the background. */
    method ConnectOnce(g: nat, dialled: Option<Socket>, child: nat)
      requires g in goroutines && Connects(goroutines[g]) && child !in goroutines
      requires dialled.Some? ==> dialled.value !in open
      modifies this
      ensures State() == After(old(State()), ConnectStep(old(goroutines[g]), g, dialled, child))
    {
      match goroutines[g]
      case Dialling(caller) =>
        if dialled.Some? {
          open := open + {dialled.value};
          goroutines := goroutines[g := Dialled(caller, dialled.value)];
        } else if caller.First? {
          goroutines := (goroutines - {g})[child := Pending];
        } else {
          goroutines := goroutines[g := Waiting(caller.attempt, caller.backoff)];
        }
      case Dialled(caller, sock) =>
        conn := Some(sock);
        goroutines := goroutines[g := Stored(caller)];
      case Stored(caller) =>
        goroutines := goroutines[g := Started(caller)][child := Reading];
      case Started(caller) =>
        if caller.First? {
          goroutines := goroutines - {g};
        } else {
          goroutines := goroutines[g := Leaving];
        }
    }

    /** Close. Its two halves are two steps; a scheduled step may come between. */
    method Close(between: seq<Tick>)
      requires Inv(State())
      modifies this
      ensures Inv(State()) && cancelled && conn.None?
      ensures State() == Dropped(Scheduled(old(State()).(cancelled := true), between))
    {
      hide Inv;
      cancelled := true;
      CancelKeepsInv(old(State()));
      ScheduleCancelsNothing(State(), between);
      Run(between);
      DropKeepsInv(State());
      Drop();
    }

    /** One scheduled goroutine takes one step. */
    method Step(t: Tick)
      modifies this
      ensures State() == Ticked(old(State()), t)
    {
      var e := EventOf(State(), t);
      if e.None? { return; }
      if IsReader(goroutines[t.g]) {
        Read(t.g, t.fails && goroutines[t.g].Holding?, t.child);
      } else if Connects(goroutines[t.g]) {
        ConnectOnce(t.g, t.dialled, t.child);
      } else {
        Reconnect(t.g, t.timer);
      }
    }

    /** Any schedule keeps the invariant of single flight. */
    method Run(ticks: seq<Tick>)
      requires Inv(State())
      modifies this
      ensures State() == Scheduled(old(State()), ticks) && Inv(State())
    {
      hide Inv;
      hide Ticked;
      for k := 0 to |ticks|
        invariant Inv(State()) && Scheduled(State(), ticks[k..]) == Scheduled(old(State()), ticks)
      {
        assert ticks[k..][1..] == ticks[k + 1..];
        TickKeepsInv(State(), ticks[k]);
        Step(ticks[k]);
      }
    }
  }
}
