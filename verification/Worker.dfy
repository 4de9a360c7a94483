/** The consumer worker as an object: the handler, and the loop that polls, handles and commits. */
module Worker {
  import opened Prelude
  import opened Backoff
  import opened Retry
  import RetryEngine
  import opened Pipeline

  /** What one call of Poll returns. */
  datatype Polled = Nothing | Record(env: Env) | KafkaError(fatal: bool)

  /** One turn of the poll loop on an answer that does not end it. */
  function PollOnce(p: Policy, topic: string, s: Pipe, x: Polled): Pipe {
    if x.Record? && s.position < |s.log| then
      var handled := DeliverNext(p, topic, s.(inHand := None), x.env);
      if handled.inHand.Some? then CommitInHand(handled, x.env.commitOk) else handled
    else s
  }

  /** The poll loop over the given answers of Poll, to the end or to a fatal error. */
  function PollAll(p: Policy, topic: string, s: Pipe, polls: seq<Polled>): Pipe
    decreases |polls|
  {
    if polls == [] || polls[0] == KafkaError(true) then s
    else PollAll(p, topic, PollOnce(p, topic, s, polls[0]), polls[1..])
  }

  class ConsumerGroup {
    const topic: string
    const retry: RetryEngine.Engine
    var log: seq<Message>
    var position: nat
    var committed: nat
    var audit: Option<nat>
    ghost var inHand: Option<nat>
    ghost var succeeded: set<nat>
    ghost var staleReads: seq<string>
    ghost var upsertsLost: nat

    constructor (topic: string, retry: RetryEngine.Engine)
      requires Initial(retry.View())
      ensures this.topic == topic && this.retry == retry && Fresh(View()) && log == []
    {
      this.topic, this.retry := topic, retry;
      log, position, committed, audit := [], 0, 0, None;
      inHand, succeeded, staleReads, upsertsLost := None, {}, [], 0;
    }

    ghost function View(): Pipe
      reads this, retry
    {
      Pipe(log, position, committed, inHand, audit, succeeded, staleReads, upsertsLost, retry.View())
    }

    /** Handles the message at the position the consumer has just moved past. */
    method Handle(m: Message, offset: nat, env: Env) returns (err: bool)
      requires position == offset + 1 <= |log| && log[offset] == m && inHand == None
      modifies this`audit, this`inHand, this`succeeded, this`staleReads, this`upsertsLost, retry
      ensures err <==> ProcessEvent(m.body).Some?
      ensures View() == DeliverNext(retry.policy, topic, old(View()).(position := offset), env)
    {
      hide Schedule, HeaderValue, GetMaxRetryAttempt, AttemptRead;
      var eventId := HeaderValue(m.headers, "event_id");
      var error := ProcessEvent(m.body);
      if error.Some? {
        var attempt := AttemptRead(retry.retries, eventId, env.read);
        if attempt < GetMaxRetryAttempt(retry.retries, eventId) {
          staleReads := staleReads + [eventId];
        }
        var _, _ := retry.Schedule(eventId, topic, error.value, attempt, env.at, env.createOk, env.dlqOk);
        return true;
      }
      if env.upsertOk {
        audit := Some(offset);
      } else {
        upsertsLost := upsertsLost + 1;
      }
      succeeded, inHand := succeeded + {offset}, Some(offset);
      retry.now := env.at;
      return false;
    }

    /** Polls until the answers run out or one is a fatal error; commits after each success only. */
    method PollLoop(polls: seq<Polled>)
      requires inHand == None
      modifies this, retry
      ensures View() == PollAll(retry.policy, topic, old(View()), polls)
    {
      ghost var end := PollAll(retry.policy, topic, View(), polls);
      for k := 0 to |polls|
        invariant inHand == None
        invariant PollAll(retry.policy, topic, View(), polls[k..]) == end
      {
        ghost var before := View();
        match polls[k]
        case Nothing =>
        case Record(env) =>
          if position < |log| {
            var offset := position;
            position := position + 1;
            assert View().(position := offset) == before;
            var err := Handle(log[offset], offset, env);
            if err { continue; }
            if env.commitOk {
              committed := offset + 1;
            }
            inHand := None;
          }
        case KafkaError(fatal) =>
          if fatal { return; }
      }
    }
  }

  /** One iteration of the loop that finds a message: deliver it, and commit it if it succeeded. */
  lemma RecordIsRun(p: Policy, topic: string, s: Pipe, env: Env) returns (states: seq<Pipe>, steps: seq<Step>)
    requires s.inHand == None && s.position < |s.log| && s.rs.now <= env.at
    ensures Run(p, topic, states, steps) && states[0] == s
    ensures var handled := DeliverNext(p, topic, s, env);
            states[|steps|] == if handled.inHand.Some? then CommitInHand(handled, env.commitOk) else handled
    ensures states[|steps|].inHand == None && states[|steps|].rs.now == env.at
  {
    var handled := DeliverNext(p, topic, s, env);
    if handled.inHand.Some? {
      states := [s, handled, CommitInHand(handled, env.commitOk)];
      steps := [Deliver(env), Commit(env.commitOk)];
    } else {
      states, steps := [s, handled], [Deliver(env)];
    }
  }

  /**
   * If the clock does not run backwards the loop is a run of the step machine, so that all that
   * is proved of those runs is proved of it.
   */
  lemma {:induction false} PollLoopIsRun(p: Policy, topic: string, s: Pipe, polls: seq<Polled>)
    returns (states: seq<Pipe>, steps: seq<Step>)
    requires s.inHand == None
    requires forall k | 0 <= k < |polls| && polls[k].Record? :: s.rs.now <= polls[k].env.at
    requires forall j, k | 0 <= j < k < |polls| && polls[j].Record? && polls[k].Record? ::
               polls[j].env.at <= polls[k].env.at
    ensures Run(p, topic, states, steps) && states[0] == s && states[|steps|] == PollAll(p, topic, s, polls)
    decreases |polls|
  {
    hide Run, Next, Possible, DeliverNext, CommitInHand;
    if polls == [] || (polls[0].KafkaError? && polls[0].fatal) {
      states, steps := [s], [];
      assert Run(p, topic, states, steps) by { NoSteps(p, topic, s); }
    } else if polls[0].Record? && s.position < |s.log| {
      var env := polls[0].env;
      assert s.(inHand := None) == s;
      var first, one := RecordIsRun(p, topic, s, env);
      RunLength(p, topic, first, one);
      var rest, more := PollLoopIsRun(p, topic, first[|one|], polls[1..]);
      RunLength(p, topic, rest, more);
      RunsCompose(p, topic, first, one, rest, more);
      states, steps := first + rest[1..], one + more;
    } else {
      states, steps := PollLoopIsRun(p, topic, s, polls[1..]);
    }
  }

  /** What one more answer of Poll adds to a loop that is still going. */
  ghost predicate PolledOnce(p: Policy, topic: string, t: Pipe, x: Polled, u: Pipe) {
    match x
    case Record(env) =>
      if t.position >= |t.log| then u == t
      else
        && u.log == t.log && u.position == t.position + 1 && u.inHand == None
        && var bad := Unprocessable(t.log[t.position].body);
        && u.succeeded == (if bad then t.succeeded else t.succeeded + {t.position})
        && u.committed == (if bad || !env.commitOk then t.committed else t.position + 1)
        && u.audit == (if bad || !env.upsertOk then t.audit else Some(t.position))
        && u.rs == DeliverNext(p, topic, t, env).rs
    case _ => u == t
  }

  lemma {:induction false} PollAllAppend(p: Policy, topic: string, s: Pipe, polls: seq<Polled>, x: Polled)
    ensures PollAll(p, topic, s, polls + [x]) ==
              if (exists k | 0 <= k < |polls| :: polls[k] == KafkaError(true)) || x == KafkaError(true)
              then PollAll(p, topic, s, polls)
              else PollOnce(p, topic, PollAll(p, topic, s, polls), x)
    decreases |polls|
  {
    hide PollOnce;
    if polls == [] {
      assert (polls + [x])[1..] == [];
    } else if polls[0] != KafkaError(true) {
      assert (polls + [x])[1..] == polls[1..] + [x];
      PollAllAppend(p, topic, PollOnce(p, topic, s, polls[0]), polls[1..], x);
      if k :| 0 <= k < |polls| && polls[k] == KafkaError(true) { assert polls[1..][k - 1] == KafkaError(true); }
      if k :| 0 <= k < |polls[1..]| && polls[1..][k] == KafkaError(true) { assert polls[k + 1] == KafkaError(true); }
    }
  }

  /**
   * Each answer of Poll counts, up to a fatal error: a message is delivered and, if it was handled
   * without error, committed; after a failure the loop goes on with the next; nothing follows a
   * fatal error, and other errors and empty answers are passed over.
   */
  lemma PollLoopExactly(p: Policy, topic: string, s: Pipe, polls: seq<Polled>, x: Polled)
    requires s.inHand == None && s.position <= |s.log|
    ensures PollAll(p, topic, s, []) == s
    ensures var t, u := PollAll(p, topic, s, polls), PollAll(p, topic, s, polls + [x]);
            && t.inHand == None && t.position <= |t.log|
            && (if exists k | 0 <= k < |polls| :: polls[k] == KafkaError(true) then u == t
                else PolledOnce(p, topic, t, x, u))
  {
    PollAllAppend(p, topic, s, polls, x);
    NothingInHand(p, topic, s, polls);
    PollOnceExactly(p, topic, PollAll(p, topic, s, polls), x);
  }

  lemma PollOnceExactly(p: Policy, topic: string, t: Pipe, x: Polled)
    requires t.inHand == None && t.position <= |t.log|
    ensures var u := PollOnce(p, topic, t, x);
            PolledOnce(p, topic, t, x, u) && u.inHand == None && u.position <= |u.log|
  {
    hide Schedule, GetMaxRetryAttempt, HeaderValue;
    assert t.(inHand := None) == t;
  }

  lemma {:induction false} NothingInHand(p: Policy, topic: string, s: Pipe, polls: seq<Polled>)
    requires s.inHand == None && s.position <= |s.log|
    ensures var t := PollAll(p, topic, s, polls); t.inHand == None && t.position <= |t.log|
    decreases |polls|
  {
    hide PollOnce, PolledOnce;
    if polls != [] && polls[0] != KafkaError(true) {
      PollOnceExactly(p, topic, s, polls[0]);
      NothingInHand(p, topic, PollOnce(p, topic, s, polls[0]), polls[1..]);
    }
  }

  /** For instance: whatever led up to it, a poll loop loses nothing silently and leaves the audit in step. */
  lemma PollLoopLosesNothing(p: Policy, topic: string, states: seq<Pipe>, steps: seq<Step>, polls: seq<Polled>, o: nat)
    requires Run(p, topic, states, steps) && Fresh(states[0]) && states[|steps|].inHand == None
    requires forall k | 0 <= k < |polls| && polls[k].Record? :: states[|steps|].rs.now <= polls[k].env.at
    requires forall j, k | 0 <= j < k < |polls| && polls[j].Record? && polls[k].Record? ::
               polls[j].env.at <= polls[k].env.at
    ensures var s := PollAll(p, topic, states[|steps|], polls);
            && states[|steps|].committed <= s.committed <= |s.log|
            && (o < s.committed ==> Accounted(s, o) || WriteLost(s.rs, EventId(s.log[o])))
            && (s.upsertsLost == 0 && s.committed > 0 ==> s.audit.Some? && s.committed <= s.audit.value + 1)
  {
    hide Possible, Next, Fresh, Accounted, WriteLost;
    var rest, more := PollLoopIsRun(p, topic, states[|steps|], polls);
    RunsCompose(p, topic, states, steps, rest, more);
    var all, acts := states + rest[1..], steps + more;
    OffsetAudit(p, topic, all, acts, |steps|);
    if o < all[|acts|].committed {
      NoSilentLoss(p, topic, all, acts, o);
    }
  }
}
