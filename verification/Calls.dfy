/** Commands over one connection, and retrying until Home Assistant is there
    (pkg/haaddon/client.go). */
module Calls {
  import opened Strings

  // ------------------------------------------------- replies by message id

  /** A frame as it is decoded: pushes carry no id, which reads as 0. */
  datatype Frame = Frame(id: int, isResult: bool, success: bool, payload: string, error: Option<string>)

  datatype Reply = Payload(payload: string) | Refused(reason: Option<string>) | ReadFailed | WriteFailed

  predicate Answers(f: Frame, id: int) { f.id == id && f.isResult }

  /** The position of the first frame that answers id, or |frames|. */
  function FirstAnswer(frames: seq<Frame>, id: int): (i: nat)
    ensures i <= |frames|
    ensures i < |frames| ==> Answers(frames[i], id)
    ensures forall k :: 0 <= k < i ==> !Answers(frames[k], id)
  {
    if frames == [] || Answers(frames[0], id) then 0 else 1 + FirstAnswer(frames[1..], id)
  }

  function ReplyOf(f: Frame): Reply {
    if f.success then Payload(f.payload) else Refused(f.error)
  }

  /** f is the first result for the id among the frames. */
  ghost predicate IsFirstResult(frames: seq<Frame>, id: int, f: Frame) {
    exists i :: 0 <= i < |frames| && frames[i] == f && f.isResult && f.id == id
                && forall k :: 0 <= k < i ==> !frames[k].isResult || frames[k].id != id
  }

  /** The reply a command with this id gets: the payload or the error of the first result
      for it, depending on whether that says success; and a failed read if there is none. */
  ghost predicate Settles(frames: seq<Frame>, id: int, reply: Reply) {
    match reply
    case Payload(p) => exists f :: IsFirstResult(frames, id, f) && f.success && f.payload == p
    case Refused(e) => exists f :: IsFirstResult(frames, id, f) && !f.success && f.error == e
    case ReadFailed => forall f :: f in frames ==> !f.isResult || f.id != id
    case WriteFailed => false
  }

  /** No two replies settle the same command. */
  lemma SettlesOnce(frames: seq<Frame>, id: int, a: Reply, b: Reply)
    requires Settles(frames, id, a) && Settles(frames, id, b)
    ensures a == b
  {
  }

  lemma AnswerSettles(frames: seq<Frame>, id: int)
    ensures var i := FirstAnswer(frames, id);
            Settles(frames, id, if i == |frames| then ReadFailed else ReplyOf(frames[i]))
  {
    var i := FirstAnswer(frames, id);
    if i < |frames| { assert IsFirstResult(frames, id, frames[i]); }
  }

  /** A connection: `inbox` holds the frames still to come before it breaks or a
      read runs out of time, `writes` counts the writes that still succeed, and `sent`
      holds the ids of the commands written to it. */
  class Connection {
    var nextId: int
    var inbox: seq<Frame>
    var writes: nat
    ghost var sent: seq<int>

    ghost predicate Valid()
      reads this
    {
      && nextId >= 1 && (forall i :: 0 <= i < |sent| ==> 1 <= sent[i] < nextId)
      && forall i, j :: 0 <= i < j < |sent| ==> sent[i] < sent[j]
    }

    constructor (inbox: seq<Frame>, writes: nat)
      ensures Valid() && this.inbox == inbox && this.writes == writes && sent == []
    {
      nextId := 1;
      this.inbox, this.writes := inbox, writes;
      sent := [];
    }

    /** call: writes the command under a new id, and reads past everything until the
        first result with that id. */
    method Call() returns (reply: Reply)
      requires Valid()
      modifies this
      ensures Valid() && nextId == old(nextId) + 1 && forall i :: i in old(sent) ==> i < old(nextId)
      ensures old(writes) == 0 ==> reply == WriteFailed && sent == old(sent) && inbox == old(inbox) && writes == 0
      ensures old(writes) > 0 ==> sent == old(sent) + [old(nextId)] && writes == old(writes) - 1
      ensures var i := FirstAnswer(old(inbox), old(nextId));
              old(writes) > 0 ==>
              if i == |old(inbox)| then reply == ReadFailed && inbox == []
              else reply == ReplyOf(old(inbox)[i]) && inbox == old(inbox)[i + 1..]
      ensures old(writes) > 0 ==> Settles(old(inbox), old(nextId), reply)
    {
      AnswerSettles(inbox, nextId);
      hide Settles;
      var id := nextId;
      nextId := nextId + 1;
      if writes == 0 { return WriteFailed; }
      writes := writes - 1;
      sent := sent + [id];
      ghost var all := inbox;
      ghost var read := 0;
      while inbox != []
        invariant nextId == id + 1 && sent == old(sent) + [id] && writes == old(writes) - 1
        invariant read <= |all| && inbox == all[read..]
        invariant forall k :: 0 <= k < read ==> !Answers(all[k], id)
        decreases |inbox|
      {
        var message := inbox[0];
        inbox := inbox[1..];
        if !Answers(message, id) {
          read := read + 1;
          continue;
        }
        assert FirstAnswer(all, id) == read;
        if !message.success {
          return Refused(message.error);
        }
        return Payload(message.payload);
      }
      return ReadFailed;
    }
  }

  /** The replies to n commands sent one after another from id on, if the first
      `writes` of them can be written. */
  function Replies(frames: seq<Frame>, id: int, n: nat, writes: nat): seq<Reply>
    decreases n
  {
    if n == 0 then []
    else if writes == 0 then [WriteFailed] + Replies(frames, id + 1, n - 1, 0)
    else
      var i := FirstAnswer(frames, id);
      if i == |frames| then [ReadFailed] + Replies([], id + 1, n - 1, writes - 1)
      else [ReplyOf(frames[i])] + Replies(frames[i + 1..], id + 1, n - 1, writes - 1)
  }

  method CallTimes(c: Connection, n: nat) returns (replies: seq<Reply>)
    requires c.Valid()
    modifies c
    ensures c.Valid() && replies == Replies(old(c.inbox), old(c.nextId), n, old(c.writes))
  {
    if n == 0 { return []; }
    var first := c.Call();
    var rest := CallTimes(c, n - 1);
    replies := [first] + rest;
  }

  /** Frames that answer none of the ids from `id` on. */
  predicate Unrelated(frames: seq<Frame>, id: int) {
    forall i :: 0 <= i < |frames| ==> !frames[i].isResult || frames[i].id < id
  }

  /** pushes[k] arrives before answer k. */
  function Interleaved(pushes: seq<seq<Frame>>, answers: seq<Frame>): seq<Frame>
    requires |pushes| == |answers|
  {
    if answers == [] then []
    else pushes[0] + [answers[0]] + Interleaved(pushes[1..], answers[1..])
  }

  lemma {:induction false} FirstAnswerAfter(noise: seq<Frame>, answer: Frame, rest: seq<Frame>, id: int)
    requires Answers(answer, id) && forall i :: 0 <= i < |noise| ==> !Answers(noise[i], id)
    ensures FirstAnswer(noise + [answer] + rest, id) == |noise|
  {
    var frames := noise + [answer] + rest;
    if noise != [] {
      assert frames[0] == noise[0] && frames[1..] == noise[1..] + [answer] + rest;
      FirstAnswerAfter(noise[1..], answer, rest, id);
    }
  }

  lemma RepliesStep(noise: seq<Frame>, answer: Frame, rest: seq<Frame>, id: int, n: nat, writes: nat)
    requires Answers(answer, id) && Unrelated(noise, id) && writes > 0
    ensures Replies(noise + [answer] + rest, id, n + 1, writes)
         == [ReplyOf(answer)] + Replies(rest, id + 1, n, writes - 1)
  {
    FirstAnswerAfter(noise, answer, rest, id);
    assert (noise + [answer] + rest)[|noise| + 1..] == rest;
  }

  predicate Matched(pushes: seq<seq<Frame>>, answers: seq<Frame>, id: int) {
    |pushes| == |answers|
    && forall k :: 0 <= k < |answers| ==>
         answers[k].isResult && answers[k].id == id + k && Unrelated(pushes[k], id + k)
  }

  lemma MatchedTail(pushes: seq<seq<Frame>>, answers: seq<Frame>, id: int)
    requires Matched(pushes, answers, id) && answers != []
    ensures Answers(answers[0], id) && Unrelated(pushes[0], id)
    ensures Matched(pushes[1..], answers[1..], id + 1)
  {
    assert Answers(answers[0], id + 0) && Unrelated(pushes[0], id + 0);
    forall k | 0 <= k < |answers| - 1
      ensures Answers(answers[1..][k], id + 1 + k) && Unrelated(pushes[1..][k], id + 1 + k)
    {
      assert Answers(answers[k + 1], id + (k + 1)) && Unrelated(pushes[k + 1], id + (k + 1));
    }
  }

  function RepliesOf(answers: seq<Frame>): seq<Reply> {
    seq(|answers|, k requires 0 <= k < |answers| => ReplyOf(answers[k]))
  }

  lemma {:induction false} MatchedReplies(pushes: seq<seq<Frame>>, answers: seq<Frame>, id: int, writes: nat)
    requires Matched(pushes, answers, id) && writes >= |answers|
    ensures Replies(Interleaved(pushes, answers), id, |answers|, writes) == RepliesOf(answers)
    decreases |answers|
  {
    if answers != [] {
      MatchedTail(pushes, answers, id);
      OneReplyMore(pushes, answers, id, writes);
      MatchedReplies(pushes[1..], answers[1..], id + 1, writes - 1);
      assert RepliesOf(answers) == [ReplyOf(answers[0])] + RepliesOf(answers[1..]);
    }
  }

  /** Each command gets its own reply however many pushes and late replies to
      earlier commands are interleaved with the answers. */
  lemma EachCallItsOwnReply(pushes: seq<seq<Frame>>, answers: seq<Frame>, id: int, writes: nat)
    requires Matched(pushes, answers, id) && writes >= |answers|
    ensures var replies := Replies(Interleaved(pushes, answers), id, |answers|, writes);
            && |replies| == |answers|
            && forall k :: 0 <= k < |answers| ==>
                 replies[k] == if answers[k].success then Payload(answers[k].payload) else Refused(answers[k].error)
  {
    hide Matched;
    MatchedReplies(pushes, answers, id, writes);
    hide Replies;
  }

  lemma OneReplyMore(pushes: seq<seq<Frame>>, answers: seq<Frame>, id: int, writes: nat)
    requires |pushes| == |answers| > 0 && Answers(answers[0], id) && Unrelated(pushes[0], id) && writes > 0
    ensures Replies(Interleaved(pushes, answers), id, |answers|, writes)
         == [ReplyOf(answers[0])] + Replies(Interleaved(pushes[1..], answers[1..]), id + 1, |answers[1..]|, writes - 1)
  {
    RepliesStep(pushes[0], answers[0], Interleaved(pushes[1..], answers[1..]), id, |answers[1..]|, writes);
  }

  // --------------------------------------------------------------- retrying

  const RETRY_INTERVAL: nat := 10
  const RETRY_TIMEOUT: nat := 600

  /** What the last piece of work returned, or that the time is over, with its error. */
  datatype Outcome<+E> = Returned(error: Option<E>) | NotReady(last: E)

  /** One piece of work: how long it takes and how it ends. */
  datatype Attempt<+E> = Attempt(duration: nat, error: Option<E>)

  /** When the next attempt starts, if all of these are retried. */
  function StartAfter<E>(attempts: seq<Attempt<E>>): nat {
    if attempts == [] then 0
    else StartAfter(attempts[..|attempts| - 1]) + attempts[|attempts| - 1].duration + RETRY_INTERVAL
  }

  predicate IsRetried<E>(a: Attempt<E>, retry: E -> bool) {
    a.error.Some? && retry(a.error.value)
  }

  /** Attempts as whenReady makes them within a limit: each but the last is retried and
      none is started past the limit. The outcome is the last one's, and when the time
      is over it keeps the last error. */
  ghost predicate Retried<E>(attempts: seq<Attempt<E>>, retry: E -> bool, limit: int, outcome: Outcome<E>) {
    && attempts != []
    && (forall k :: 0 <= k < |attempts| - 1 ==> IsRetried(attempts[k], retry))
    && (forall k :: 0 < k < |attempts| ==> StartAfter(attempts[..k]) <= limit)
    && var last := attempts[|attempts| - 1];
       if IsRetried(last, retry) then outcome == NotReady(last.error.value) && StartAfter(attempts) >= limit
       else outcome == Returned(last.error)
  }

  lemma {:induction false} StartsApart<E>(attempts: seq<Attempt<E>>)
    ensures StartAfter(attempts) >= RETRY_INTERVAL * |attempts|
  {
    if attempts != [] { StartsApart(attempts[..|attempts| - 1]); }
  }

  /** Within ten minutes work starts at most 61 times. */
  lemma RetriedAtMost<E>(attempts: seq<Attempt<E>>, retry: E -> bool, limit: int, outcome: Outcome<E>)
    requires Retried(attempts, retry, limit, outcome) && limit <= 600
    ensures 1 <= |attempts| <= 61
  {
    var k := |attempts| - 1;
    if k > 0 {
      StartsApart(attempts[..k]);
      assert StartAfter(attempts[..k]) <= limit;
    }
  }

  /** Only errors to retry are retried, and what ended the retrying is handed on. */
  ghost predicate EndsWith<E>(attempts: seq<Attempt<E>>, retry: E -> bool, outcome: Outcome<E>) {
    && attempts != []
    && (forall k :: 0 <= k < |attempts| - 1 ==> attempts[k].error.Some? && retry(attempts[k].error.value))
    && match outcome
       case Returned(None) => attempts[|attempts| - 1].error == None
       case Returned(Some(e)) => attempts[|attempts| - 1].error == Some(e) && !retry(e)
       case NotReady(e) => attempts[|attempts| - 1].error == Some(e) && retry(e)
  }

  lemma RetriedEndsWith<E>(attempts: seq<Attempt<E>>, retry: E -> bool, limit: int, outcome: Outcome<E>)
    requires Retried(attempts, retry, limit, outcome)
    ensures EndsWith(attempts, retry, outcome)
    ensures outcome.NotReady? ==> StartAfter(attempts) >= limit
  {
  }

  function Min(a: int, b: int): int { if a < b then a else b }

  /** So far every attempt was retried, and the next one starts within the limit. */
  ghost predicate Retrying<E>(attempts: seq<Attempt<E>>, retry: E -> bool, limit: int) {
    && (forall k :: 0 <= k < |attempts| ==> IsRetried(attempts[k], retry))
    && (forall k :: 0 < k <= |attempts| ==> StartAfter(attempts[..k]) <= limit)
  }

  lemma NoAttempts<E>(retry: E -> bool, limit: int)
    ensures Retrying([], retry, limit) && StartAfter<E>([]) == 0
  {
  }

  lemma OneAttemptMore<E>(attempts: seq<Attempt<E>>, a: Attempt<E>)
    ensures StartAfter(attempts + [a]) == StartAfter(attempts) + a.duration + 10
  {
    assert (attempts + [a])[..|attempts|] == attempts;
  }

  lemma GoesOn<E>(attempts: seq<Attempt<E>>, a: Attempt<E>, retry: E -> bool, limit: int)
    requires Retrying(attempts, retry, limit) && IsRetried(a, retry) && StartAfter(attempts + [a]) <= limit
    ensures Retrying(attempts + [a], retry, limit)
  {
    var more := attempts + [a];
    forall k | 0 < k <= |more| ensures StartAfter(more[..k]) <= limit {
      assert k <= |attempts| ==> more[..k] == attempts[..k];
      assert k == |more| ==> more[..k] == more;
    }
  }

  lemma IsOver<E>(attempts: seq<Attempt<E>>, a: Attempt<E>, retry: E -> bool, limit: int, outcome: Outcome<E>)
    requires Retrying(attempts, retry, limit)
    requires if IsRetried(a, retry) then outcome == NotReady(a.error.value) && StartAfter(attempts + [a]) >= limit
             else outcome == Returned(a.error)
    ensures Retried(attempts + [a], retry, limit, outcome)
  {
    var more := attempts + [a];
    forall k | 0 < k < |more| ensures StartAfter(more[..k]) <= limit {
      assert more[..k] == attempts[..k];
    }
  }

  /** What whenReady does after an attempt, at the time `now` at which the next one would
      start: it returns, or goes on. */
  method AfterAttempt<E>(ghost attempts: seq<Attempt<E>>, a: Attempt<E>, retry: E -> bool, limit: int, now: int,
                         tie: bool)
    returns (over: Option<Outcome<E>>)
    requires Retrying(attempts, retry, limit) && now == StartAfter(attempts) + a.duration + RETRY_INTERVAL
    ensures StartAfter(attempts + [a]) == now
    ensures over.None? ==> Retrying(attempts + [a], retry, limit) && now <= limit
    ensures over.Some? ==> Retried(attempts + [a], retry, limit, over.value)
    ensures over.Some? ==> EndsWith(attempts + [a], retry, over.value)
    ensures over.Some? && limit <= 600 ==> |attempts + [a]| <= 61
    ensures over == Some(Returned(None)) ==> a.error.None?
  {
    hide StartAfter;
    hide Retrying;
    hide Retried;
    OneAttemptMore(attempts, a);
    if !(a.error.Some? && retry(a.error.value)) {
      over := Some(Returned(a.error));
    } else if now > limit || (now == limit && tie) {
      over := Some(NotReady(a.error.value));
    } else {
      GoesOn(attempts, a, retry, limit);
      return None;
    }
    IsOver(attempts, a, retry, limit, over.value);
    RetriedEndsWith(attempts + [a], retry, limit, over.value);
    if limit <= 600 { RetriedAtMost(attempts + [a], retry, limit, over.value); }
  }

  /** whenReady, on a clock that starts at 0; `deadline` is the caller's own, and
      `ties` settles the race of a timer and a deadline at the same instant. */
  method WhenReady<E>(work: nat -> Attempt<E>, retry: E -> bool, deadline: nat, ties: nat -> bool)
    returns (outcome: Outcome<E>, attempts: seq<Attempt<E>>)
    ensures forall k :: 0 <= k < |attempts| ==> attempts[k] == work(k)
    ensures Retried(attempts, retry, Min(deadline, RETRY_TIMEOUT), outcome)
    ensures 1 <= |attempts| <= 61 && EndsWith(attempts, retry, outcome)
    ensures outcome.NotReady? ==> StartAfter(attempts) >= deadline || StartAfter(attempts) >= 600
  {
    hide StartAfter;
    hide Retrying;
    hide Retried;
    var limit := Min(deadline, RETRY_TIMEOUT);
    var now := 0;
    attempts := [];
    NoAttempts(retry, limit);
    while true
      invariant now == StartAfter(attempts) && RETRY_INTERVAL * |attempts| <= now
      invariant forall k :: 0 <= k < |attempts| ==> attempts[k] == work(k)
      invariant Retrying(attempts, retry, limit) && (attempts != [] ==> now <= limit)
      decreases RETRY_TIMEOUT + 1 - RETRY_INTERVAL * |attempts|
    {
      var attempt := work(|attempts|);
      now := now + attempt.duration + RETRY_INTERVAL;
      var over := AfterAttempt(attempts, attempt, retry, limit, now, ties(|attempts|));
      attempts := attempts + [attempt];
      if over.Some? {
        RetriedEndsWith(attempts, retry, limit, over.value);
        return over.value, attempts;
      }
    }
  }
}
