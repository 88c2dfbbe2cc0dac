/** Service syncs and their acknowledgements: senders, the outbound channel's
    consumers and the ack handler as interleaved steps
    (pkg/providers/proxy/proxy.go, pkg/signaling/client.go). */
module SyncAcks {
  import opened Strings

  type Id = string

  datatype Callback = Callback(operation: string, serviceID: string)

  /** Where a message is. A sender registers it, offers it to the channel, and forgets
      it if the channel is full; a consumer drops it while disconnected, fails to send
      it, or sends it; the cloud answers what was sent, and the answer may be lost. */
  datatype Phase = Registered | Refused | Forgotten | Queued | Dropped | Unsent | Sent | Answered | Unanswered | Acked

  /** How a consumer fares with the message it took: no connection, a send that fails
      because the connection went meanwhile or breaks, or a send. */
  datatype Delivery = Disconnected | SendFailed | Delivered

  /** The provider's entries, the channel with the other messages in it counted, and
      what became of every message. */
  datatype Sync = Sync(callbacks: map<Id, Callback>, queue: seq<Id>, others: nat, issued: map<Id, (Callback, Phase)>)

  const CAPACITY: nat := 100

  datatype Event =
    | Register(id: Id, callback: Callback) | Offer(id: Id) | Forget(id: Id)
    | Consume(delivery: Delivery) | Answer(id: Id) | Lose(id: Id) | HandleAck(id: Id) | HandleUnknown(id: Id)
    | OtherSent | OtherTaken

  predicate In(s: Sync, id: Id, phase: Phase) { id in s.issued && s.issued[id].1 == phase }

  /** Message ids are fresh, and an id is answered at most once. */
  predicate Enabled(s: Sync, e: Event) {
    match e
    case Register(id, _) => id !in s.issued
    case Offer(id) => In(s, id, Registered)
    case Forget(id) => In(s, id, Refused)
    case Consume(_) => s.queue != [] && s.queue[0] in s.issued
    case Answer(id) => In(s, id, Sent)
    case Lose(id) => In(s, id, Sent) || In(s, id, Answered)
    case HandleAck(id) => In(s, id, Answered)
    case HandleUnknown(id) => id !in s.issued
    case OtherSent => |s.queue| + s.others < CAPACITY
    case OtherTaken => s.others > 0
  }

  function Moved(s: Sync, id: Id, phase: Phase): Sync
    requires id in s.issued
  {
    s.(issued := s.issued[id := (s.issued[id].0, phase)])
  }

  function Fate(delivery: Delivery): Phase {
    match delivery
    case Disconnected => Dropped
    case SendFailed => Unsent
    case Delivered => Sent
  }

  function After(s: Sync, e: Event): Sync
    requires Enabled(s, e)
  {
    match e
    case Register(id, c) => s.(callbacks := s.callbacks[id := c], issued := s.issued[id := (c, Registered)])
    case Offer(id) =>
      if |s.queue| + s.others < CAPACITY then Moved(s, id, Queued).(queue := s.queue + [id])
      else Moved(s, id, Refused)
    case Forget(id) => Moved(s, id, Forgotten).(callbacks := s.callbacks - {id})
    case Consume(delivery) => Moved(s, s.queue[0], Fate(delivery)).(queue := s.queue[1..])
    case Answer(id) => Moved(s, id, Answered)
    case Lose(id) => Moved(s, id, Unanswered)
    case HandleAck(id) => Moved(s, id, Acked).(callbacks := s.callbacks - {id})
    case HandleUnknown(id) => s.(callbacks := s.callbacks - {id})
    case OtherSent => s.(others := s.others + 1)
    case OtherTaken => s.(others := s.others - 1)
  }

  predicate Tracked(p: Phase) { p != Forgotten && p != Acked }

  /** The entries are those of the messages that were neither refused and forgotten nor
      acknowledged, each under its own id and as it was registered. */
  predicate EntriesTell(s: Sync) {
    s.callbacks == (map id | id in s.issued && Tracked(s.issued[id].1) :: s.issued[id].0)
  }

  /** The queue holds every queued message once. */
  predicate QueueTells(s: Sync) {
    && (forall i, j :: 0 <= i < j < |s.queue| ==> s.queue[i] != s.queue[j])
    && (forall i :: 0 <= i < |s.queue| ==> In(s, s.queue[i], Queued))
    && (forall id :: id in s.issued && s.issued[id].1 == Queued ==> id in s.queue)
    && |s.queue| + s.others <= CAPACITY
  }

  predicate Inv(s: Sync) { EntriesTell(s) && QueueTells(s) }

  lemma EntriesStep(s: Sync, e: Event)
    requires EntriesTell(s) && Enabled(s, e) && (e.Consume? ==> In(s, s.queue[0], Queued))
    ensures EntriesTell(After(s, e))
  {
  }

  lemma QueueOffer(s: Sync, id: Id)
    requires QueueTells(s) && Enabled(s, Offer(id))
    ensures QueueTells(After(s, Offer(id)))
  {
    if |s.queue| + s.others < CAPACITY {
      assert After(s, Offer(id)).queue[|s.queue|] == id;
    }
  }

  lemma QueueConsume(s: Sync, delivery: Delivery)
    requires QueueTells(s) && Enabled(s, Consume(delivery))
    ensures QueueTells(After(s, Consume(delivery)))
  {
    assert s.queue == [s.queue[0]] + After(s, Consume(delivery)).queue;
  }

  lemma QueueStep(s: Sync, e: Event)
    requires QueueTells(s) && Enabled(s, e)
    ensures QueueTells(After(s, e))
  {
    match e
    case Offer(id) => QueueOffer(s, id);
    case Consume(delivery) => QueueConsume(s, delivery);
    case _ =>
  }

  lemma StepKeepsInv(s: Sync, e: Event)
    requires Inv(s) && Enabled(s, e)
    ensures Inv(After(s, e))
  {
    hide EntriesTell;
    hide After;
    QueueStep(s, e);
    EntriesStep(s, e);
  }

  predicate IsRun(s: Sync, es: seq<Event>)
    decreases |es|
  {
    es == [] || (Enabled(s, es[0]) && IsRun(After(s, es[0]), es[1..]))
  }

  function Reached(s: Sync, es: seq<Event>): Sync
    requires IsRun(s, es)
    decreases |es|
  {
    if es == [] then s else Reached(After(s, es[0]), es[1..])
  }

  function Idle(): Sync { Sync(map[], [], 0, map[]) }

  lemma RunKeepsInv(s: Sync, es: seq<Event>)
    requires Inv(s) && IsRun(s, es)
    ensures Inv(Reached(s, es))
    decreases |es|
  {
    hide Inv;
    hide Enabled;
    hide After;
    if es != [] {
      StepKeepsInv(s, es[0]);
      RunKeepsInv(After(s, es[0]), es[1..]);
    }
  }

  lemma {:induction false} IssuedAsRegistered(s: Sync, es: seq<Event>, id: Id, c: Callback)
    requires IsRun(s, es) && (Register(id, c) in es || (id in s.issued && s.issued[id].0 == c))
    ensures id in Reached(s, es).issued && Reached(s, es).issued[id].0 == c
    decreases |es|
  {
    if es != [] {
      assert Register(id, c) in es ==> es[0] == Register(id, c) || Register(id, c) in es[1..];
      IssuedAsRegistered(After(s, es[0]), es[1..], id, c);
    }
  }

  /** Over every run: a registered message has its entry, the one it was registered
      with, while its sender still offers it, while it is queued, sent or answered, and
      after it or its answer was lost; it has none once its sender forgot it after the
      channel refused it, or once its ack was handled. No other entry exists. */
  lemma MessagesAreTracked(es: seq<Event>, id: Id, c: Callback)
    requires IsRun(Idle(), es) && Register(id, c) in es
    ensures var s := Reached(Idle(), es);
            && id in s.issued
            && (id in s.callbacks <==> s.issued[id].1 != Forgotten && s.issued[id].1 != Acked)
            && (id in s.callbacks ==> s.callbacks[id] == c)
            && s.callbacks.Keys <= s.issued.Keys && |s.queue| + s.others <= 100
  {
    RunKeepsInv(Idle(), es);
    IssuedAsRegistered(Idle(), es, id, c);
  }

  predicate Over(s: Sync, id: Id) { In(s, id, Forgotten) || In(s, id, Acked) }

  lemma StaysOver(s: Sync, e: Event, id: Id)
    requires Inv(s) && Over(s, id) && Enabled(s, e)
    ensures Over(After(s, e), id)
  {
    assert e.Consume? ==> In(s, s.queue[0], Queued);
  }

  /** A message that is forgotten or acknowledged never has an entry again. */
  lemma {:induction false} OverForGood(s: Sync, es: seq<Event>, id: Id)
    requires Inv(s) && Over(s, id) && IsRun(s, es)
    ensures Over(Reached(s, es), id) && id !in Reached(s, es).callbacks
    decreases |es|
  {
    if es != [] {
      StepKeepsInv(s, es[0]);
      StaysOver(s, es[0], id);
      OverForGood(After(s, es[0]), es[1..], id);
    }
  }

  /** In every run, when the ack of a message is handled its entry is there, as it was
      registered; it goes, and the entry of every other message stays as it was
      registered. */
  lemma AckRemovesItsOwn(es: seq<Event>, id: Id, c: Callback, other: Id, d: Callback)
    requires IsRun(Idle(), es) && Register(id, c) in es && In(Reached(Idle(), es), id, Answered)
    requires Register(other, d) in es && other != id && other in Reached(Idle(), es).callbacks
    ensures var s := Reached(Idle(), es);
            var t := After(s, HandleAck(id));
            && id in s.callbacks && s.callbacks[id] == c && id !in t.callbacks
            && other in t.callbacks && t.callbacks[other] == d && t.callbacks.Keys == s.callbacks.Keys - {id}
  {
    MessagesAreTracked(es, id, c);
    MessagesAreTracked(es, other, d);
  }

  /** A message or its answer is lost. */
  predicate Lost(p: Phase) { p == Dropped || p == Unsent || p == Unanswered }

  /** Nothing more will happen to any message. */
  predicate Settled(s: Sync) {
    forall id :: id in s.issued ==> s.issued[id].1 == Forgotten || s.issued[id].1 == Acked || Lost(s.issued[id].1)
  }

  /** Once everything has settled, the entries left behind are those of the messages
      that were dropped while disconnected, failed to be sent, or whose answer was lost;
      so none is left if and only if nothing was lost. Nothing ever removes them. */
  lemma LeftBehindExactly(es: seq<Event>)
    requires IsRun(Idle(), es) && Settled(Reached(Idle(), es))
    ensures var s := Reached(Idle(), es);
            && (forall id :: id in s.callbacks <==> id in s.issued && Lost(s.issued[id].1))
            && (s.callbacks == map[] <==> forall id :: id in s.issued ==> !Lost(s.issued[id].1))
  {
    hide Reached;
    RunKeepsInv(Idle(), es);
    var s := Reached(Idle(), es);
    assert forall id :: id in s.callbacks <==> id in s.issued && Lost(s.issued[id].1);
    if s.callbacks != map[] {
      assert exists id :: id in s.callbacks;
    }
  }

  lemma {:induction false} LostForGood(s: Sync, es: seq<Event>, id: Id)
    requires Inv(s) && id in s.issued && Lost(s.issued[id].1) && IsRun(s, es)
    ensures var t := Reached(s, es); id in t.callbacks && id in t.issued && t.issued[id] == s.issued[id]
    decreases |es|
  {
    if es != [] {
      StepKeepsInv(s, es[0]);
      StaysLost(s, es[0], id);
      LostForGood(After(s, es[0]), es[1..], id);
    }
  }

  lemma StaysLost(s: Sync, e: Event, id: Id)
    requires Inv(s) && id in s.issued && Lost(s.issued[id].1) && Enabled(s, e)
    ensures id in After(s, e).issued && After(s, e).issued[id] == s.issued[id]
  {
    assert e.Consume? ==> In(s, s.queue[0], Queued);
  }

  lemma FirstSteps(c: Callback)
    ensures Enabled(Idle(), Register("m", c))
    ensures var one := After(Idle(), Register("m", c));
            Enabled(one, Offer("m")) && Enabled(After(one, Offer("m")), Consume(SendFailed))
            && var three := After(After(one, Offer("m")), Consume(SendFailed));
               three == Sync(map["m" := c], [], 0, map["m" := (c, Unsent)])
  {
  }

  /** A message that a connected consumer fails to send leaves its entry. */
  lemma FailedSendLeavesEntry(c: Callback)
    ensures var es := [Register("m", c), Offer("m"), Consume(SendFailed)];
            && IsRun(Idle(), es) && Settled(Reached(Idle(), es)) && Reached(Idle(), es).callbacks == map["m" := c]
  {
    hide After;
    var es := [Register("m", c), Offer("m"), Consume(SendFailed)];
    FirstSteps(c);
    var one := After(Idle(), es[0]);
    var two := After(one, es[1]);
    var three := After(two, es[2]);
    assert es[1..] == [es[1], es[2]] && es[1..][1..] == [es[2]] && es[1..][1..][1..] == [];
    assert IsRun(three, []) && Reached(three, []) == three;
    assert IsRun(two, [es[2]]) && Reached(two, [es[2]]) == three;
    assert IsRun(one, es[1..]) && Reached(one, es[1..]) == three;
  }

  /** A step of anybody but the sender of mine; a step that is not enabled does
      nothing. */
  function Stepped(s: Sync, e: Event, mine: Id): Sync {
    if !Enabled(s, e) || ((e.Register? || e.Offer? || e.Forget?) && e.id == mine) then s else After(s, e)
  }

  lemma StepSparesMine(s: Sync, e: Event, mine: Id)
    requires Inv(s)
    ensures Inv(Stepped(s, e, mine))
    ensures In(s, mine, Registered) ==> In(Stepped(s, e, mine), mine, Registered)
    ensures In(s, mine, Refused) ==> In(Stepped(s, e, mine), mine, Refused)
  {
    hide EntriesTell;
    if Enabled(s, e) {
      assert e.Consume? ==> In(s, s.queue[0], Queued);
      StepKeepsInv(s, e);
    }
  }

  lemma StaysRegistered(s: Sync, e: Event, id: Id)
    requires id in s.issued
    ensures id in Stepped(s, e, id).issued && Stepped(s, e, id).issued[id].0 == s.issued[id].0
  {
  }

  function SteppedAll(s: Sync, es: seq<Event>, mine: Id): Sync
    decreases |es|
  {
    if es == [] then s else SteppedAll(Stepped(s, es[0], mine), es[1..], mine)
  }

  // ---------------------------------------------------------- the provider

  /** The provider's callbacks and the channel; issued is what the senders, the
      consumers and the cloud know of each message. */
  class Provider {
    var syncCallbacks: map<Id, Callback>
    var syncChan: seq<Id>
    var others: nat
    var issued: map<Id, (Callback, Phase)>

    function State(): Sync
      reads this
    {
      Sync(syncCallbacks, syncChan, others, issued)
    }

    constructor ()
      ensures State() == Idle() && Inv(State())
    {
      syncCallbacks, syncChan, others, issued := map[], [], 0, map[];
    }

    /** The non-blocking send. */
    method TrySend(id: Id) returns (queued: bool)
      requires In(State(), id, Registered)
      modifies this
      ensures State() == After(old(State()), Offer(id)) && (queued <==> In(State(), id, Queued))
      ensures queued <==> old(|syncChan| + others) < 100
      ensures syncCallbacks == old(syncCallbacks) && issued[id].0 == old(issued)[id].0
      ensures !queued ==> In(State(), id, Refused)
    {
      queued := |syncChan| + others < CAPACITY;
      if queued { syncChan := syncChan + [id]; }
      issued := issued[id := (issued[id].0, if queued then Queued else Refused)];
    }

    /** HandleServiceSyncAck, and the callback it reports with. */
    method HandleServiceSyncAck(id: Id) returns (callback: Option<Callback>)
      requires Inv(State()) && (id in issued ==> In(State(), id, Answered))
      modifies this
      ensures State() == After(old(State()), if id in old(issued) then HandleAck(id) else HandleUnknown(id))
      ensures callback == if id in old(issued) then Some(old(issued)[id].0) else None
    {
      if id in syncCallbacks {
        callback := Some(syncCallbacks[id]);
        syncCallbacks := syncCallbacks - {id};
      } else {
        callback := None;
      }
      if id in issued { issued := issued[id := (issued[id].0, Acked)]; }
    }

    method Step(e: Event, mine: Id)
      requires Inv(State())
      modifies this
      ensures State() == Stepped(old(State()), e, mine)
    {
      hide EntriesTell;
      if !Enabled(State(), e) || ((e.Register? || e.Offer? || e.Forget?) && e.id == mine) { return; }
      match e
      case Register(id, c) =>
        syncCallbacks := syncCallbacks[id := c];
        issued := issued[id := (c, Registered)];
      case Offer(id) =>
        var _ := TrySend(id);
      case Forget(id) =>
        syncCallbacks := syncCallbacks - {id};
        issued := issued[id := (issued[id].0, Forgotten)];
      case Consume(delivery) =>
        var id := syncChan[0];
        syncChan := syncChan[1..];
        issued := issued[id := (issued[id].0, Fate(delivery))];
      case Answer(id) =>
        issued := issued[id := (issued[id].0, Answered)];
      case Lose(id) =>
        issued := issued[id := (issued[id].0, Unanswered)];
      case HandleAck(id) =>
        var _ := HandleServiceSyncAck(id);
      case HandleUnknown(id) =>
        var _ := HandleServiceSyncAck(id);
      case OtherSent =>
        others := others + 1;
      case OtherTaken =>
        others := others - 1;
    }

    method Others(es: seq<Event>, mine: Id)
      requires Inv(State())
      modifies this
      ensures State() == SteppedAll(old(State()), es, mine) && Inv(State())
      ensures In(old(State()), mine, Registered) ==> In(State(), mine, Registered)
      ensures In(old(State()), mine, Refused) ==> In(State(), mine, Refused)
      ensures mine in old(issued) ==> mine in issued && issued[mine].0 == old(issued)[mine].0
    {
      hide Inv;
      hide Stepped;
      for k := 0 to |es|
        invariant Inv(State()) && SteppedAll(State(), es[k..], mine) == SteppedAll(old(State()), es, mine)
        invariant In(old(State()), mine, Registered) ==> In(State(), mine, Registered)
        invariant In(old(State()), mine, Refused) ==> In(State(), mine, Refused)
        invariant mine in old(issued) ==> mine in issued && issued[mine].0 == old(issued)[mine].0
      {
        assert es[k..][1..] == es[k + 1..];
        if mine in issued { StaysRegistered(State(), es[k], mine); }
        StepSparesMine(State(), es[k], mine);
        Step(es[k], mine);
      }
    }

    /** syncServiceOperation, with whatever others do before it offers the message and
        before it forgets it: it returns with the message queued under its entry, or
        refused and without one. */
    method SyncServiceOperation(id: Id, operation: string, serviceID: string, first: seq<Event>, second: seq<Event>)
      returns (queued: bool)
      requires Inv(State()) && id !in issued
      modifies this
      ensures Inv(State())
      ensures queued ==>
                && In(State(), id, Queued) && id in syncCallbacks
                && syncCallbacks[id] == Callback(operation, serviceID)
      ensures !queued ==> In(State(), id, Forgotten) && id !in syncCallbacks
    {
      var callback := Callback(operation, serviceID);
      StepKeepsInv(State(), Register(id, callback));
      syncCallbacks := syncCallbacks[id := callback];
      issued := issued[id := (callback, Registered)];
      Others(first, id);
      StepKeepsInv(State(), Offer(id));
      queued := TrySend(id);
      if !queued {
        Others(second, id);
        StepKeepsInv(State(), Forget(id));
        syncCallbacks := syncCallbacks - {id};
        issued := issued[id := (issued[id].0, Forgotten)];
      }
    }
  }
}
