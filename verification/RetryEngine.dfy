/** The retry engine as an object over the `retries` and `dead_letter_messages` tables. */
module RetryEngine {
  import opened Prelude
  import opened Backoff
  import opened Retry

  class Engine {
    const policy: Policy
    var now: int
    var retries: seq<RetryRecord>
    var dlq: seq<DLQMessage>
    ghost var inflight: seq<Taken>
    ghost var hist: History

    constructor (policy: Policy)
      ensures this.policy == policy && Initial(View()) && now == 0
    {
      this.policy := policy;
      now, retries, dlq, inflight, hist := 0, [], [], [], NO_HISTORY;
    }

    ghost function View(): RetryState
      reads this
    {
      RetryState(now, retries, dlq, inflight, hist)
    }

    method StoreDead(m: DLQMessage, ok: bool) returns (err: bool)
      modifies this`dlq, this`hist
      ensures err <==> !ok
      ensures View() == Retry.MoveToDLQ(old(View()), m, ok)
    {
      if !ok {
        hist := hist.(dlqLost := hist.dlqLost + [m.eventId]);
        return true;
      }
      dlq := dlq + [m];
      return false;
    }

    method MoveToDLQ(eventId: string, topic: string, eventType: string, payload: string,
                     reason: string, attempts: nat, at: int, ok: bool) returns (err: bool)
      modifies this`dlq, this`hist
      ensures err <==> !ok
      ensures View() == Retry.MoveToDLQ(old(View()), Dead(eventId, topic, eventType, payload, reason, attempts, at), ok)
    {
      var body := payload;
      if |body| == 0 {
        body := "{}";
      }
      err := StoreDead(DLQMessage(topic, eventId, eventType, body, reason, attempts, at, None), ok);
    }

    /** Records a retry, or at the limit a dead letter; returns the record made, if one was. */
    method Schedule(eventId: string, topic: string, error: string, attempt: nat, at: int, createOk: bool, dlqOk: bool)
      returns (record: Option<RetryRecord>, err: bool)
      modifies this
      ensures View() == Retry.Schedule(policy, old(View()), at, eventId, topic, error, attempt, createOk, dlqOk)
      ensures record.Some? <==> attempt < policy.maxAttempts && createOk
      ensures record.Some? ==>
                && retries == old(retries) + [record.value]
                && record.value == RetryRecord(eventId, topic, attempt + 1, policy.maxAttempts,
                                               at + Delay(policy, attempt), error, Pending)
      ensures err <==> if attempt >= policy.maxAttempts then !dlqOk else !createOk
    {
      now := at;
      if attempt >= policy.maxAttempts {
        hist := hist.(direct := hist.direct + [eventId]);
        err := MoveToDLQ(eventId, topic, "unknown", "{}", error, attempt, at, dlqOk);
        return None, err;
      }
      var next := Delay(policy, attempt);
      var r := RetryRecord(eventId, topic, attempt + 1, policy.maxAttempts, at + next, error, Pending);
      if !createOk {
        hist := hist.(createsLost := hist.createsLost + [eventId]);
        return None, true;
      }
      retries := retries + [r];
      hist := hist.(issued := hist.issued + Weight(r), life := hist.life + [Life(attempt, [next], 0, false)]);
      return Some(r), false;
    }

    /**
     * One poll: takes the batch the query returned, or gives up when the query fails; then calls
     * the handler on each record and stores what follows from its answer.
     */
    method ProcessPending(at: int, batch: Option<seq<nat>>, answers: nat -> Answer) returns (err: bool)
      requires inflight == []
      requires batch.Some? ==> PendingRetries(retries, at, batch.value)
      modifies this
      ensures err <==> batch.None?
      ensures batch.None? ==> View() == old(View())
      ensures batch.Some? ==> View() == Drain(policy, Begin(old(View()), at, batch.value), answers, 0)
    {
      if batch.None? { return true; }
      var records := Rows(retries, batch.value);
      ghost var end := Drain(policy, Begin(View(), at, batch.value), answers, 0);
      now, inflight := at, records;
      hist := hist.(polls := hist.polls + if records == [] then 1 else 0);
      assert View() == Begin(old(View()), at, batch.value);
      for k := 0 to |records|
        invariant inflight == records[k..]
        invariant Drain(policy, View(), answers, k) == end
      {
        ghost var before := View();
        HandleOne(records[k], answers(k));
        assert Drain(policy, before, answers, k) == Drain(policy, View(), answers, k + 1);
      }
      return false;
    }

    /** The body of the poll's loop. */
    method HandleOne(t: Taken, a: Answer)
      requires inflight != [] && inflight[0] == t
      modifies this
      ensures View() == HandleNext(policy, old(View()), a)
    {
      hide Delay, Retry.MoveToDLQ, Dead, Lived, UpdateRetry;
      var r := t.record;
      now, inflight := a.at, inflight[1..];
      ghost var h := hist.(handled := hist.handled + [t.id],
                           polls := hist.polls + (if inflight == [] then 1 else 0),
                           updatesLost := hist.updatesLost + (if a.updateOk then 0 else 1));
      if a.error.Some? {
        r := r.(lastError := a.error.value, attempt := r.attempt + 1);
        if r.attempt >= r.maxAttempts {
          r := r.(status := Failed);
          StoreUpdate(t.id, r, a.updateOk);
          hist := h.(failuresLost := h.failuresLost + (if a.updateOk then [] else [r.eventId]),
                     life := Lived(policy, h.life, t.id, r, a));
          DeadLetter(r, a);
          return;
        }
        r := r.(status := Pending, nextRetryAt := a.at + Delay(policy, r.attempt));
        StoreUpdate(t.id, r, a.updateOk);
        hist := h.(life := Lived(policy, h.life, t.id, r, a));
        return;
      }
      r := r.(status := Completed);
      StoreUpdate(t.id, r, a.updateOk);
      hist := h.(successes := h.successes + 1, life := Lived(policy, h.life, t.id, r, a));
    }

    /** Dead-letters an exhausted record, with the stored event's type and payload if it can be found. */
    method DeadLetter(r: RetryRecord, a: Answer)
      modifies this`dlq, this`hist
      ensures var e := FoundOr(a.eventById(r.eventId));
              View() == Retry.MoveToDLQ(old(View()),
                          Dead(r.eventId, r.topic, e.eventType, e.payload, r.lastError, r.attempt, a.at), a.dlqOk)
    {
      var eventType, payload := "unknown", "{}";
      var e := a.eventById(r.eventId);
      if e.Some? {
        eventType, payload := e.value.eventType, e.value.payload;
      }
      var _ := MoveToDLQ(r.eventId, r.topic, eventType, payload, r.lastError, r.attempt, a.at, a.dlqOk);
    }

    method StoreUpdate(id: nat, r: RetryRecord, ok: bool)
      modifies this`retries
      ensures retries == if ok then UpdateRetry(old(retries), id, r) else old(retries)
    {
      if ok {
        retries := UpdateRetry(retries, id, r);
      }
    }
  }

  /** A poll with nothing in between is one run of the step machine, and leaves no batch behind. */
  lemma {:induction false} DrainIsExecution(p: Policy, s: RetryState, answers: nat -> Answer, k: nat)
    returns (states: seq<RetryState>, actions: seq<Action>)
    requires s.now <= answers(k).at && forall j: nat :: answers(j).at <= answers(j + 1).at
    ensures Execution(p, states, actions) && states[0] == s
    ensures states[|actions|] == Drain(p, s, answers, k) && states[|actions|].inflight == []
    decreases |s.inflight|
  {
    if s.inflight == [] {
      return [s], [];
    }
    var s' := HandleNext(p, s, answers(k));
    var rest, acts := DrainIsExecution(p, s', answers, k + 1);
    states, actions := [s] + rest, [DoHandle(answers(k))] + acts;
    forall i | 0 <= i < |actions|
      ensures Enabled(states[i], actions[i]) && states[i + 1] == Apply(p, states[i], actions[i])
    {
      if i > 0 { assert Enabled(rest[i - 1], acts[i - 1]); }
    }
  }
}
