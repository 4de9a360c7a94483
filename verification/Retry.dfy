/**
 * The retry engine: scheduling, the batch-limited poller, and the two routes into the dead letter
 * queue. A poll is not atomic: it takes a batch and handles it record by record, other schedules
 * falling in between. Every store write may fail; the history says which did.
 */
module Retry {
  import opened Prelude
  import opened Backoff

  /** LIMIT of the pending query. */
  const BATCH: nat := 100

  datatype RetryStatus = Pending | Completed | Failed

  /** A row of `retries`; its id is its position in the table. */
  datatype RetryRecord = RetryRecord(
    eventId: string, topic: string, attempt: nat, maxAttempts: int, nextRetryAt: int,
    lastError: string, status: RetryStatus)

  datatype DLQMessage = DLQMessage(
    originalTopic: string, eventId: string, eventType: string, payload: string,
    failureReason: string, retryAttempts: nat, failedAt: int, replayedAt: Option<int>)

  datatype Taken = Taken(id: nat, record: RetryRecord)

  /** What became of one record: the attempt it was scheduled at, its waits, the handler calls it got. */
  datatype Life = Life(origin: nat, waits: seq<int>, calls: nat, writeLost: bool)

  /** Event ids of over-limit schedules and of lost writes, and running totals. */
  datatype History = History(
    direct: seq<string>, createsLost: seq<string>, failuresLost: seq<string>, dlqLost: seq<string>,
    updatesLost: nat, polls: nat, handled: seq<nat>, successes: nat, issued: nat, life: seq<Life>)

  /** `inflight` is the rest of the batch a poll has taken. */
  datatype RetryState = RetryState(
    now: int, retries: seq<RetryRecord>, dlq: seq<DLQMessage>, inflight: seq<Taken>, hist: History)

  /** What is stored of an event, as far as a dead letter copies it. */
  datatype Stored = Stored(eventType: string, payload: string)

  /**
   * What one handler call meets: the time, its error, the events table by id as far as it can be
   * read, and which writes succeed.
   */
  datatype Answer = Answer(
    at: int, error: Option<string>, eventById: string -> Option<Stored>, updateOk: bool, dlqOk: bool)

  // ---------------------------------------------------------------- the engine's own steps

  function AfterFailure(p: Policy, r: RetryRecord, error: string, at: int): RetryRecord {
    var r' := r.(lastError := error, attempt := r.attempt + 1);
    if r'.attempt >= r'.maxAttempts then r'.(status := Failed)
    else r'.(status := Pending, nextRetryAt := at + Delay(p, r'.attempt))
  }

  function AfterCall(p: Policy, r: RetryRecord, a: Answer): RetryRecord {
    if a.error.None? then r.(status := Completed) else AfterFailure(p, r, a.error.value, a.at)
  }

  function Dead(eventId: string, topic: string, eventType: string, payload: string,
                reason: string, attempts: nat, at: int): DLQMessage
  {
    DLQMessage(topic, eventId, eventType, if payload == "" then "{}" else payload, reason, attempts, at, None)
  }

  function FoundOr(e: Option<Stored>): Stored {
    if e.Some? then e.value else Stored("unknown", "{}")
  }

  function MoveToDLQ(s: RetryState, m: DLQMessage, ok: bool): RetryState {
    if ok then s.(dlq := s.dlq + [m])
    else s.(hist := s.hist.(dlqLost := s.hist.dlqLost + [m.eventId]))
  }

  function Schedule(p: Policy, s: RetryState, at: int, eventId: string, topic: string, error: string,
                    attempt: nat, createOk: bool, dlqOk: bool): RetryState
  {
    var s := s.(now := at);
    if attempt >= p.maxAttempts then
      MoveToDLQ(s.(hist := s.hist.(direct := s.hist.direct + [eventId])),
                Dead(eventId, topic, "unknown", "{}", error, attempt, at), dlqOk)
    else if createOk then
      var r := RetryRecord(eventId, topic, attempt + 1, p.maxAttempts, at + Delay(p, attempt), error, Pending);
      s.(retries := s.retries + [r],
         hist := s.hist.(issued := s.hist.issued + Weight(r),
                         life := s.hist.life + [Life(attempt, [Delay(p, attempt)], 0, false)]))
    else
      s.(hist := s.hist.(createsLost := s.hist.createsLost + [eventId]))
  }

  function Due(at: int): RetryRecord -> bool {
    (r: RetryRecord) => r.status.Pending? && r.nextRetryAt <= at
  }

  function Earlier(): (RetryRecord, RetryRecord) -> bool {
    (a: RetryRecord, b: RetryRecord) => a.nextRetryAt <= b.nextRetryAt
  }

  /** `ids` is what the pending query may return at time `at`. */
  ghost predicate PendingRetries(retries: seq<RetryRecord>, at: int, ids: seq<nat>) {
    Answers(retries, Due(at), Earlier(), Some(BATCH), ids)
  }

  /** The query always has an answer. */
  lemma PendingRetriesAnswered(retries: seq<RetryRecord>, at: int) returns (ids: seq<nat>)
    ensures PendingRetries(retries, at, ids)
  {
    assert TotalPreorder(Earlier());
    ids := AnswerExists(retries, Due(at), Earlier(), Some(BATCH));
  }

  function Rows(retries: seq<RetryRecord>, ids: seq<nat>): seq<Taken>
    requires forall k | 0 <= k < |ids| :: ids[k] < |retries|
  {
    seq(|ids|, k requires 0 <= k < |ids| => Taken(ids[k], retries[ids[k]]))
  }

  function Begin(s: RetryState, at: int, ids: seq<nat>): RetryState
    requires forall k | 0 <= k < |ids| :: ids[k] < |s.retries|
  {
    s.(now := at, inflight := Rows(s.retries, ids),
       hist := s.hist.(polls := s.hist.polls + if ids == [] then 1 else 0))
  }

  /** UPDATE retries SET attempt, next_retry_at, last_error, status WHERE id. */
  function UpdateRetry(retries: seq<RetryRecord>, id: nat, r: RetryRecord): seq<RetryRecord> {
    if id >= |retries| then retries else
      retries[id := retries[id].(attempt := r.attempt, nextRetryAt := r.nextRetryAt,
                                 lastError := r.lastError, status := r.status)]
  }

  function Lived(p: Policy, life: seq<Life>, id: nat, r: RetryRecord, a: Answer): seq<Life> {
    if id >= |life| then life else
      var l := life[id].(calls := life[id].calls + 1, writeLost := life[id].writeLost || !a.updateOk);
      life[id := if a.error.Some? && r.status.Pending? then l.(waits := l.waits + [r.nextRetryAt - a.at]) else l]
  }

  /** One handler call of the poll in progress and what follows it. */
  function HandleNext(p: Policy, s: RetryState, a: Answer): RetryState
    requires s.inflight != []
  {
    var t := s.inflight[0];
    var r := AfterCall(p, t.record, a);
    var h := s.hist.(
      handled := s.hist.handled + [t.id],
      polls := s.hist.polls + (if |s.inflight| == 1 then 1 else 0),
      successes := s.hist.successes + (if a.error.None? then 1 else 0),
      updatesLost := s.hist.updatesLost + (if a.updateOk then 0 else 1),
      failuresLost := s.hist.failuresLost + (if r.status.Failed? && !a.updateOk then [r.eventId] else []),
      life := Lived(p, s.hist.life, t.id, r, a));
    var s' := s.(now := a.at, inflight := s.inflight[1..], hist := h,
                 retries := if a.updateOk then UpdateRetry(s.retries, t.id, r) else s.retries);
    if r.status.Failed? then
      var e := FoundOr(a.eventById(r.eventId));
      MoveToDLQ(s', Dead(r.eventId, r.topic, e.eventType, e.payload, r.lastError, r.attempt, a.at), a.dlqOk)
    else s'
  }

  /** The whole of a poll that has taken its batch, with nothing in between. */
  function Drain(p: Policy, s: RetryState, answers: nat -> Answer, k: nat): RetryState
    decreases |s.inflight|
  {
    if s.inflight == [] then s else Drain(p, HandleNext(p, s, answers(k)), answers, k + 1)
  }

  // ---------------------------------------------------------------- runs

  datatype Action =
    | DoSchedule(at: int, eventId: string, topic: string, error: string, attempt: nat, createOk: bool, dlqOk: bool)
    | DoBegin(at: int, ids: seq<nat>)
    | DoHandle(answer: Answer)
    | DoCrash

  ghost predicate Enabled(s: RetryState, a: Action) {
    match a
    case DoSchedule(at, _, _, _, _, _, _) => s.now <= at
    case DoBegin(at, ids) => s.now <= at && s.inflight == [] && PendingRetries(s.retries, at, ids)
    case DoHandle(answer) => s.now <= answer.at && s.inflight != []
    case DoCrash => true
  }

  function Apply(p: Policy, s: RetryState, a: Action): RetryState
    requires Enabled(s, a)
  {
    match a
    case DoSchedule(at, e, topic, error, attempt, createOk, dlqOk) =>
      Schedule(p, s, at, e, topic, error, attempt, createOk, dlqOk)
    case DoBegin(at, ids) => Begin(s, at, ids)
    case DoHandle(answer) => HandleNext(p, s, answer)
    case DoCrash => s.(inflight := [])
  }

  ghost predicate Execution(p: Policy, states: seq<RetryState>, actions: seq<Action>) {
    && |states| == |actions| + 1
    && forall i | 0 <= i < |actions| ::
         Enabled(states[i], actions[i]) && states[i + 1] == Apply(p, states[i], actions[i])
  }

  const NO_HISTORY: History := History([], [], [], [], 0, 0, [], 0, 0, [])

  predicate Initial(s: RetryState) {
    s.retries == [] && s.dlq == [] && s.inflight == [] && s.hist == NO_HISTORY
  }

  // ---------------------------------------------------------------- counting

  /** The handler calls a record still has coming if every one fails. */
  function Weight(r: RetryRecord): nat {
    if r.status.Pending? then Max(1, r.maxAttempts - r.attempt) else 0
  }

  function WeightOf(): RetryRecord -> nat {
    (r: RetryRecord) => Weight(r)
  }

  /** A count is for one event id, or with None for all of them. */
  predicate Counts(e: Option<string>, eventId: string) {
    e.None? || e.value == eventId
  }

  function FailedFor(e: Option<string>): RetryRecord -> nat {
    (r: RetryRecord) => if r.status.Failed? && Counts(e, r.eventId) then 1 else 0
  }

  function DeadFor(e: Option<string>): DLQMessage -> nat {
    (m: DLQMessage) => if Counts(e, m.eventId) then 1 else 0
  }

  function Is(e: Option<string>): string -> nat {
    (x: string) => if Counts(e, x) then 1 else 0
  }

  /** Pending records that are due no later than t. */
  function PendingBy(t: int): RetryRecord -> nat {
    (r: RetryRecord) => if r.status.Pending? && r.nextRetryAt <= t then 1 else 0
  }

  // ---------------------------------------------------------------- what every run keeps

  /**
   * The attempt bounds of each status, and the record's own story: as long as no write of its was
   * lost, it has waited a prefix of `Waits`, once before each call, and has failed exactly when
   * it has waited them all.
   */
  ghost predicate RecordOk(p: Policy, r: RetryRecord, l: Life) {
    && r.maxAttempts == p.maxAttempts && l.origin < p.maxAttempts
    && (match r.status
        case Pending => 1 <= r.attempt <= r.maxAttempts
        case Completed => 1 <= r.attempt <= r.maxAttempts
        case Failed => r.maxAttempts <= r.attempt <= r.maxAttempts + 1)
    && (!l.writeLost ==>
          && l.waits <= Waits(p, l.origin)
          && (r.status.Pending? ==>
                l.waits + LaterWaits(p, r.attempt) == Waits(p, l.origin) && |l.waits| == l.calls + 1)
          && (r.status.Completed? ==> |l.waits| == l.calls)
          && (r.status.Failed? ==> l.waits == Waits(p, l.origin) && |l.waits| == l.calls))
  }

  ghost predicate InflightOk(s: RetryState) {
    && (forall k | 0 <= k < |s.inflight| ::
          && s.inflight[k].id < |s.retries| && s.retries[s.inflight[k].id] == s.inflight[k].record
          && s.inflight[k].record.status.Pending? && s.inflight[k].record.nextRetryAt <= s.now)
    && (forall j, k | 0 <= j < k < |s.inflight| :: s.inflight[j].id != s.inflight[k].id)
  }

  /** Dead letters for e, stored or lost, match failed records, stored or lost, and over-limit schedules. */
  predicate Balanced(s: RetryState, e: Option<string>) {
    SumOf(s.dlq, DeadFor(e)) + SumOf(s.hist.dlqLost, Is(e)) ==
    SumOf(s.retries, FailedFor(e)) + SumOf(s.hist.failuresLost, Is(e)) + SumOf(s.hist.direct, Is(e))
  }

  /** Handler calls made and still to come never exceed what scheduling issued, lost updates apart. */
  predicate Measured(s: RetryState) {
    var spent := |s.hist.handled| + SumOf(s.retries, WeightOf());
    && spent <= s.hist.issued + s.hist.updatesLost
    && (s.hist.successes == 0 ==> spent == s.hist.issued + s.hist.updatesLost)
  }

  ghost predicate Inv(p: Policy, s: RetryState) {
    && |s.hist.life| == |s.retries|
    && (forall i | 0 <= i < |s.retries| :: RecordOk(p, s.retries[i], s.hist.life[i]))
    && InflightOk(s)
    && (forall e :: Balanced(s, e))
    && Measured(s)
  }

  /** A record of the batch in progress is replaced as a whole: nothing else has touched it. */
  lemma UpdateIsWhole(p: Policy, s: RetryState, a: Answer)
    requires InflightOk(s) && s.inflight != []
    ensures var t := s.inflight[0];
            HandleNext(p, s, a).retries ==
              if a.updateOk then s.retries[t.id := AfterCall(p, t.record, a)] else s.retries
  {
  }

  lemma DeadSum(s: RetryState, m: DLQMessage, ok: bool, e: Option<string>)
    ensures var s' := MoveToDLQ(s, m, ok);
            SumOf(s'.dlq, DeadFor(e)) + SumOf(s'.hist.dlqLost, Is(e)) ==
            SumOf(s.dlq, DeadFor(e)) + SumOf(s.hist.dlqLost, Is(e)) + if Counts(e, m.eventId) then 1 else 0
  {
    SumAppend(s.dlq, m, DeadFor(e));
    SumAppend(s.hist.dlqLost, m.eventId, Is(e));
  }

  lemma ScheduleKeeps(p: Policy, s: RetryState, a: Action)
    requires Inv(p, s) && a.DoSchedule? && Enabled(s, a)
    ensures Inv(p, Apply(p, s, a))
  {
    hide SumOf, Delay;
    var s' := Apply(p, s, a);
    forall e ensures Balanced(s', e) {
      assert Balanced(s, e);
      if a.attempt >= p.maxAttempts {
        SumAppend(s.hist.direct, a.eventId, Is(e));
        DeadSum(s.(now := a.at, hist := s.hist.(direct := s.hist.direct + [a.eventId])),
                Dead(a.eventId, a.topic, "unknown", "{}", a.error, a.attempt, a.at), a.dlqOk, e);
      } else if a.createOk {
        SumAppend(s.retries, s'.retries[|s.retries|], FailedFor(e));
      }
    }
    if a.attempt < p.maxAttempts && a.createOk {
      SumAppend(s.retries, s'.retries[|s.retries|], WeightOf());
      assert RecordOk(p, s'.retries[|s.retries|], s'.hist.life[|s.retries|]);
    }
    forall i | 0 <= i < |s.retries| ensures RecordOk(p, s'.retries[i], s'.hist.life[i]) {
      assert RecordOk(p, s.retries[i], s.hist.life[i]);
    }
  }

  lemma BeginKeeps(p: Policy, s: RetryState, a: Action)
    requires Inv(p, s) && a.DoBegin? && Enabled(s, a)
    ensures Inv(p, Apply(p, s, a))
  {
    hide SumOf, Delay;
    var s' := Apply(p, s, a);
    forall k | 0 <= k < |s'.inflight|
      ensures var t := s'.inflight[k];
              && t.id < |s'.retries| && s'.retries[t.id] == t.record
              && t.record.status.Pending? && t.record.nextRetryAt <= s'.now
    {
      assert Due(a.at)(s.retries[a.ids[k]]);
    }
    forall e ensures Balanced(s', e) { assert Balanced(s, e); }
  }

  lemma HandledRecordOk(p: Policy, r: RetryRecord, l: Life, a: Answer)
    requires RecordOk(p, r, l) && r.status.Pending?
    ensures var r' := AfterCall(p, r, a);
            var l' := Lived(p, [l], 0, r', a)[0];
            RecordOk(p, if a.updateOk then r' else r, l')
  {
    hide Delay;
    var r' := AfterCall(p, r, a);
    if !l.writeLost && a.updateOk && a.error.Some? {
      if r'.status.Pending? {
        var w := Delay(p, r'.attempt);
        assert LaterWaits(p, r.attempt) == [w] + LaterWaits(p, r'.attempt);
        assert l.waits + ([w] + LaterWaits(p, r'.attempt)) == (l.waits + [w]) + LaterWaits(p, r'.attempt);
        assert l.waits + [w] <= (l.waits + [w]) + LaterWaits(p, r'.attempt);
      } else {
        assert LaterWaits(p, r.attempt) == [];
      }
    }
  }

  lemma HandleKeeps(p: Policy, s: RetryState, a: Answer)
    requires Inv(p, s) && Enabled(s, DoHandle(a))
    ensures Inv(p, HandleNext(p, s, a))
  {
    hide SumOf, Delay, RecordOk, Balanced, Measured, AfterCall;
    var s', t := HandleNext(p, s, a), s.inflight[0];
    var r := AfterCall(p, t.record, a);
    AfterCallKeepsKeys(p, t.record, a);
    UpdateIsWhole(p, s, a);
    forall i | 0 <= i < |s'.retries| ensures RecordOk(p, s'.retries[i], s'.hist.life[i]) {
      assert RecordOk(p, s.retries[i], s.hist.life[i]);
      if i == t.id { HandledRecordOk(p, t.record, s.hist.life[i], a); }
    }
    HandleBalance(p, s, a);
    HandleMeasure(p, s, a);
  }

  lemma AfterCallKeepsKeys(p: Policy, r: RetryRecord, a: Answer)
    ensures var r' := AfterCall(p, r, a);
            r'.eventId == r.eventId && r'.topic == r.topic && r'.maxAttempts == r.maxAttempts
  {
  }

  lemma HandleBalance(p: Policy, s: RetryState, a: Answer)
    requires InflightOk(s) && s.inflight != [] && forall e :: Balanced(s, e)
    ensures forall e :: Balanced(HandleNext(p, s, a), e)
  {
    hide SumOf, Delay;
    var s', t := HandleNext(p, s, a), s.inflight[0];
    var r := AfterCall(p, t.record, a);
    forall e ensures Balanced(s', e) {
      assert Balanced(s, e);
      SumUpdate(s.retries, t.id, r, FailedFor(e));
      SumAppend(s.hist.failuresLost, r.eventId, Is(e));
      assert s.hist.failuresLost + [] == s.hist.failuresLost;
      if r.status.Failed? {
        var found := FoundOr(a.eventById(r.eventId));
        DeadSum(s, Dead(r.eventId, r.topic, found.eventType, found.payload, r.lastError, r.attempt, a.at), a.dlqOk, e);
      }
    }
  }

  /** The termination measure: a failing call costs exactly one, a succeeding one at least one, a lost update none. */
  lemma HandleMeasure(p: Policy, s: RetryState, a: Answer)
    requires InflightOk(s) && s.inflight != [] && Measured(s)
    ensures Measured(HandleNext(p, s, a))
    ensures var before, after := SumOf(s.retries, WeightOf()), SumOf(HandleNext(p, s, a).retries, WeightOf());
            if !a.updateOk then after == before
            else if a.error.Some? then after == before - 1
            else after == before - Weight(s.inflight[0].record) <= before - 1
  {
    hide SumOf, Delay;
    var t := s.inflight[0];
    UpdateIsWhole(p, s, a);
    SumUpdate(s.retries, t.id, AfterCall(p, t.record, a), WeightOf());
  }

  lemma {:induction false} InvHolds(p: Policy, states: seq<RetryState>, actions: seq<Action>)
    requires Execution(p, states, actions) && Initial(states[0])
    ensures Inv(p, states[|actions|])
  {
    if actions != [] {
      var n := |actions| - 1;
      InvHolds(p, states[..n + 1], actions[..n]);
      StepKeeps(p, states[n], actions[n]);
    }
  }

  lemma StepKeeps(p: Policy, s: RetryState, a: Action)
    requires Inv(p, s) && Enabled(s, a)
    ensures Inv(p, Apply(p, s, a))
  {
    match a
    case DoSchedule(_, _, _, _, _, _, _) => ScheduleKeeps(p, s, a);
    case DoBegin(_, _) => BeginKeeps(p, s, a);
    case DoHandle(answer) => HandleKeeps(p, s, answer);
    case DoCrash =>
      forall e ensures Balanced(Apply(p, s, a), e) { assert Balanced(s, e); }
  }

  // ---------------------------------------------------------------- main results

  /**
   * In every run, per event id and in total, the dead letters balance as `Balanced` says; so they
   * number the failed records and the over-limit schedules exactly when as many dead letter
   * writes as failure updates were lost, in particular when none was.
   */
  lemma DlqConservation(p: Policy, states: seq<RetryState>, actions: seq<Action>, e: Option<string>)
    requires Execution(p, states, actions) && Initial(states[0])
    ensures var s := states[|actions|];
            && Balanced(s, e)
            && (SumOf(s.dlq, DeadFor(e)) == SumOf(s.retries, FailedFor(e)) + SumOf(s.hist.direct, Is(e)) <==>
                SumOf(s.hist.dlqLost, Is(e)) == SumOf(s.hist.failuresLost, Is(e)))
  {
    InvHolds(p, states, actions);
  }

  /**
   * A dead letter is never written early: its attempts have reached the limit, its payload is
   * not empty, and it is not marked replayed.
   */
  lemma {:induction false} DeadLettersAreExhausted(p: Policy, states: seq<RetryState>, actions: seq<Action>, d: nat)
    requires Execution(p, states, actions) && Initial(states[0]) && d < |states[|actions|].dlq|
    ensures var m := states[|actions|].dlq[d];
            && m.retryAttempts >= p.maxAttempts && m.payload != "" && m.replayedAt.None?
            && m.failedAt <= states[|actions|].now
  {
    hide Delay, SumOf, Inv, UpdateRetry, Lived;
    var n := |actions| - 1;
    assert actions != [];
    var s, a := states[n], actions[n];
    assert Enabled(s, a) && states[n + 1] == Apply(p, s, a);
    if d < |s.dlq| {
      DeadLettersAreExhausted(p, states[..n + 1], actions[..n], d);
    } else if a.DoHandle? {
      InvHolds(p, states[..n + 1], actions[..n]);
      PendingWithinLimit(p, s, s.inflight[0]);
    }
  }

  lemma PendingWithinLimit(p: Policy, s: RetryState, t: Taken)
    requires Inv(p, s) && s.inflight != [] && t == s.inflight[0]
    ensures t.record.maxAttempts == p.maxAttempts && t.record.status.Pending?
  {
    assert RecordOk(p, s.retries[t.id], s.hist.life[t.id]);
  }

  /**
   * In every run the handler is called at most max(1, maxAttempts - a - 1) times per record
   * scheduled at a, summed over the records, plus once per lost update; and when every call fails
   * the sum is used up to exactly what the pending records still weigh.
   */
  lemma CallsAreBounded(p: Policy, states: seq<RetryState>, actions: seq<Action>)
    requires Execution(p, states, actions) && Initial(states[0])
    ensures var s := states[|actions|];
            && |s.hist.handled| <= s.hist.issued + s.hist.updatesLost
            && (s.hist.successes == 0 ==>
                  |s.hist.handled| + SumOf(s.retries, WeightOf()) == s.hist.issued + s.hist.updatesLost)
  {
    InvHolds(p, states, actions);
  }

  /** One step that schedules nothing: the handler calls it makes come off the measure. */
  lemma StepSpends(p: Policy, s: RetryState, a: Action)
    requires Inv(p, s) && Enabled(s, a) && !a.DoSchedule?
    ensures var s' := Apply(p, s, a);
            var spent := |s'.hist.handled| - |s.hist.handled|;
            var budget := SumOf(s.retries, WeightOf()) + (s'.hist.updatesLost - s.hist.updatesLost);
            && Inv(p, s')
            && s.hist.handled <= s'.hist.handled && s.hist.successes <= s'.hist.successes
            && spent + SumOf(s'.retries, WeightOf()) <= budget
            && (s'.hist.successes == s.hist.successes ==>
                  spent + SumOf(s'.retries, WeightOf()) == budget)
  {
    hide SumOf, Delay, RecordOk, Balanced, Lived, AfterCall, UpdateRetry, Dead;
    StepKeeps(p, s, a);
    if a.DoHandle? {
      HandleMeasure(p, s, a.answer);
    }
  }

  lemma {:induction false} CallsWithinMeasureByHistory(p: Policy, states: seq<RetryState>, actions: seq<Action>)
    requires Execution(p, states, actions) && Inv(p, states[0])
    requires forall i | 0 <= i < |actions| :: !actions[i].DoSchedule?
    ensures Inv(p, states[|actions|])
    ensures var s0, s := states[0], states[|actions|];
            var calls := |s.hist.handled| - |s0.hist.handled|;
            var budget := SumOf(s0.retries, WeightOf()) + (s.hist.updatesLost - s0.hist.updatesLost);
            && s0.hist.handled <= s.hist.handled && s0.hist.successes <= s.hist.successes
            && calls + SumOf(s.retries, WeightOf()) <= budget
            && (s.hist.successes == s0.hist.successes ==> calls + SumOf(s.retries, WeightOf()) == budget)
  {
    hide Inv, SumOf, Enabled, Apply;
    if actions != [] {
      var n := |actions| - 1;
      CallsWithinMeasureByHistory(p, states[..n + 1], actions[..n]);
      StepSpends(p, states[n], actions[n]);
    }
  }

  /**
   * The measure bounds what is still to come: from any state a run has reached, if nothing more is
   * scheduled, the handler is called no more often than the pending records weigh now, plus once
   * per update lost from here on; and if every call fails, the weight left is exactly the rest.
   */
  lemma CallsWithinMeasure(p: Policy, states: seq<RetryState>, actions: seq<Action>)
    requires Execution(p, states, actions) && Inv(p, states[0])
    requires forall i | 0 <= i < |actions| :: !actions[i].DoSchedule?
    ensures var left := SumOf(states[|actions|].retries, WeightOf());
            var budget := SumOf(states[0].retries, WeightOf()) + UpdatesLost(actions);
            && Inv(p, states[|actions|])
            && HandlerCalls(actions) + left <= budget
            && ((forall i | 0 <= i < |actions| && actions[i].DoHandle? :: actions[i].answer.error.Some?) ==>
                  HandlerCalls(actions) + left == budget)
  {
    hide Inv, SumOf, Enabled, Apply, UpdatesLost, HandlerCalls;
    CallsWithinMeasureByHistory(p, states, actions);
    CountersAreTrue(p, states, actions);
    if forall i | 0 <= i < |actions| && actions[i].DoHandle? :: actions[i].answer.error.Some? {
      NoSuccess(p, states, actions);
    }
  }

  lemma {:induction false} NoSuccess(p: Policy, states: seq<RetryState>, actions: seq<Action>)
    requires Execution(p, states, actions)
    requires forall i | 0 <= i < |actions| && actions[i].DoHandle? :: actions[i].answer.error.Some?
    ensures states[|actions|].hist.successes == states[0].hist.successes
  {
    if actions != [] {
      var n := |actions| - 1;
      NoSuccess(p, states[..n + 1], actions[..n]);
      hide Delay, Lived, UpdateRetry, AfterCall, Dead, FoundOr;
      assert Enabled(states[n], actions[n]) && states[n + 1] == Apply(p, states[n], actions[n]);
    }
  }

  /** The attempt bounds, and the exact life of a record none of whose updates was lost. */
  lemma RecordsLiveAsScheduled(p: Policy, states: seq<RetryState>, actions: seq<Action>, id: nat)
    requires Execution(p, states, actions) && Initial(states[0]) && id < |states[|actions|].retries|
    ensures var s := states[|actions|];
            && id < |s.hist.life|
            && var r, l := s.retries[id], s.hist.life[id];
            && (r.status.Pending? ==> 1 <= r.attempt <= p.maxAttempts)
            && (r.status.Failed? ==> p.maxAttempts <= r.attempt <= p.maxAttempts + 1)
            && l.origin < p.maxAttempts
            && (!l.writeLost && r.status.Failed? ==>
                  l.calls == Max(1, p.maxAttempts - l.origin - 1) && l.waits == Waits(p, l.origin))
            && (!l.writeLost ==> l.calls <= Max(1, p.maxAttempts - l.origin - 1))
  {
    InvHolds(p, states, actions);
    var s := states[|actions|];
    assert RecordOk(p, s.retries[id], s.hist.life[id]);
    WaitsShape(p, s.hist.life[id].origin);
  }

  // ---------------------------------------------------------------- what each step writes

  /** The step calls the handler on the record with this id. */
  predicate HandlesNow(s: RetryState, a: Action, id: nat) {
    a.DoHandle? && s.inflight != [] && s.inflight[0].id == id
  }

  /** A pending record after its handler returned `a`, by the limit `max`. */
  ghost predicate Answered(p: Policy, r: RetryRecord, a: Answer, r': RetryRecord) {
    match a.error
    case None => r' == r.(status := Completed)
    case Some(error) =>
      && r'.attempt == r.attempt + 1 && r'.lastError == error
      && r'.eventId == r.eventId && r'.topic == r.topic && r'.maxAttempts == r.maxAttempts
      && (if r.attempt + 1 >= p.maxAttempts
          then r'.status.Failed? && r'.nextRetryAt == r.nextRetryAt
          else r'.status.Pending? && r'.nextRetryAt == a.at + Delay(p, r.attempt + 1))
  }

  /**
   * In every run, a record is made only by a schedule below the limit that was stored, of the next
   * attempt, due after the delay of the attempt given; and it changes only when its handler has
   * returned and the update was stored, from what is stored of it at that moment.
   */
  lemma RecordsChangeExactly(p: Policy, states: seq<RetryState>, actions: seq<Action>, i: nat)
    requires Execution(p, states, actions) && Initial(states[0]) && i < |actions|
    ensures var s, t, a := states[i], states[i + 1], actions[i];
            var made := a.DoSchedule? && a.attempt < p.maxAttempts && a.createOk;
            && |t.retries| == |s.retries| + (if made then 1 else 0)
            && (made ==>
                  t.retries[|s.retries|] == RetryRecord(a.eventId, a.topic, a.attempt + 1, p.maxAttempts,
                                                        a.at + Delay(p, a.attempt), a.error, Pending))
            && (forall id | 0 <= id < |s.retries| ::
                  if HandlesNow(s, a, id) && a.answer.updateOk
                  then s.retries[id].status.Pending? && Answered(p, s.retries[id], a.answer, t.retries[id])
                  else t.retries[id] == s.retries[id])
  {
    hide Delay, SumOf, Inv, Lived, Dead, FoundOr;
    InvHolds(p, states[..i + 1], actions[..i]);
    var s, a := states[i], actions[i];
    assert Enabled(s, a) && states[i + 1] == Apply(p, s, a);
    if a.DoHandle? {
      InflightIsStored(p, s);
      UpdateIsWhole(p, s, a.answer);
      PendingWithinLimit(p, s, s.inflight[0]);
    }
  }

  lemma InflightIsStored(p: Policy, s: RetryState)
    requires Inv(p, s) && s.inflight != []
    ensures InflightOk(s)
    ensures var t := s.inflight[0]; t.id < |s.retries| && s.retries[t.id] == t.record && t.record.status.Pending?
  {
  }

  /**
   * And a dead letter is written only by a schedule at the limit, with no more than the error it
   * was given, or when a record's last allowed call has failed: with the type and payload stored
   * for that record's event, if they can be read, the handler's error, and the record's attempt.
   */
  lemma DeadLettersWrittenExactly(p: Policy, states: seq<RetryState>, actions: seq<Action>, i: nat)
    requires Execution(p, states, actions) && Initial(states[0]) && i < |actions|
    ensures var s, t, a := states[i], states[i + 1], actions[i];
            match a
            case DoSchedule(at, e, topic, error, attempt, _, dlqOk) =>
              t.dlq == if attempt >= p.maxAttempts && dlqOk
                       then s.dlq + [DLQMessage(topic, e, "unknown", "{}", error, attempt, at, None)]
                       else s.dlq
            case DoHandle(answer) =>
              && s.inflight[0].id < |s.retries|
              && var r := s.retries[s.inflight[0].id];
              var found := answer.eventById(r.eventId);
              t.dlq == if answer.error.Some? && r.attempt + 1 >= p.maxAttempts && answer.dlqOk
                       then s.dlq + [DLQMessage(
                              r.topic, r.eventId, if found.Some? then found.value.eventType else "unknown",
                              if found.Some? && found.value.payload != "" then found.value.payload else "{}",
                              answer.error.value, r.attempt + 1, answer.at, None)]
                       else s.dlq
            case _ => t.dlq == s.dlq
  {
    hide Delay, SumOf, Inv, Lived, UpdateRetry;
    InvHolds(p, states[..i + 1], actions[..i]);
    var s, a := states[i], actions[i];
    assert Enabled(s, a) && states[i + 1] == Apply(p, s, a);
    if a.DoHandle? {
      InflightIsStored(p, s);
      PendingWithinLimit(p, s, s.inflight[0]);
    }
  }

  /** A crash leaves the tables alone; what was left of the batch is still pending and due. */
  lemma CrashLosesOnlyTheBatch(p: Policy, states: seq<RetryState>, actions: seq<Action>, i: nat)
    requires Execution(p, states, actions) && Initial(states[0]) && i < |actions| && actions[i].DoCrash?
    ensures var s, t := states[i], states[i + 1];
            && t.retries == s.retries && t.dlq == s.dlq && t.now == s.now && t.inflight == []
            && forall k | 0 <= k < |s.inflight| ::
                 var id := s.inflight[k].id;
                 id < |t.retries| && t.retries[id].status.Pending? && t.retries[id].nextRetryAt <= t.now
  {
    hide Delay, SumOf;
    InvHolds(p, states[..i + 1], actions[..i]);
    assert Enabled(states[i], actions[i]) && states[i + 1] == Apply(p, states[i], actions[i]);
  }

  /** Step i stored the record that is still there: it made it, or it stored what its handler returned. */
  ghost predicate Wrote(p: Policy, s: RetryState, a: Action, id: nat) {
    || (a.DoSchedule? && a.attempt < p.maxAttempts && a.createOk && id == |s.retries|)
    || (HandlesNow(s, a, id) && a.answer.updateOk && a.answer.error.Some?)
  }

  function TimeOf(a: Action): int
    requires a.DoSchedule? || a.DoHandle?
  {
    if a.DoSchedule? then a.at else a.answer.at
  }

  lemma LifeOfStep(p: Policy, s: RetryState, a: Action, id: nat)
    requires Inv(p, s) && Enabled(s, a) && id < |Apply(p, s, a).retries|
    requires var t := Apply(p, s, a); t.retries[id].status.Pending? && id < |t.hist.life| && !t.hist.life[id].writeLost
    ensures var t := Apply(p, s, a);
            if Wrote(p, s, a, id)
            then
              && t.hist.life[id].waits != []
              && t.retries[id].nextRetryAt == TimeOf(a) + t.hist.life[id].waits[|t.hist.life[id].waits| - 1]
              && (a.DoSchedule? ==>
                    t.hist.life[id].waits == [Delay(p, a.attempt)] && t.hist.life[id].origin == a.attempt)
            else
              && id < |s.retries| && id < |s.hist.life|
              && t.retries[id] == s.retries[id] && t.hist.life[id] == s.hist.life[id]
  {
    hide Delay, SumOf, RecordOk, Balanced, Measured, Dead, FoundOr;
    if a.DoHandle? {
      InflightIsStored(p, s);
      UpdateIsWhole(p, s, a.answer);
    }
  }

  /**
   * In every run, a pending record none of whose updates was lost is due exactly the last of its
   * waits after the step that set it, the latest to write the record: a handler call that failed,
   * or, if it has had none, its schedule at `origin`, whose one wait is the delay of that attempt.
   */
  lemma {:induction false} PendingDueExactly(p: Policy, states: seq<RetryState>, actions: seq<Action>, id: nat)
    returns (i: nat)
    requires Execution(p, states, actions) && Initial(states[0]) && id < |states[|actions|].retries|
    requires var s := states[|actions|];
             s.retries[id].status.Pending? && id < |s.hist.life| && !s.hist.life[id].writeLost
    ensures var r, l := states[|actions|].retries[id], states[|actions|].hist.life[id];
            && i < |actions| && Wrote(p, states[i], actions[i], id) && l.waits != []
            && r.nextRetryAt == TimeOf(actions[i]) + l.waits[|l.waits| - 1]
            && (forall m | i < m <= |actions| :: id < |states[m].retries| && states[m].retries[id] == r)
            && (actions[i].DoSchedule? ==> l.origin == actions[i].attempt && l.waits == [Delay(p, l.origin)])
  {
    hide Delay, SumOf, Inv, Enabled, Apply;
    var n := |actions| - 1;
    assert actions != [] by { NothingYet(states[0]); }
    InvHolds(p, states[..n + 1], actions[..n]);
    LifeOfStep(p, states[n], actions[n], id);
    if Wrote(p, states[n], actions[n], id) {
      i := n;
    } else {
      i := PendingDueExactly(p, states[..n + 1], actions[..n], id);
    }
  }

  lemma NothingYet(s: RetryState)
    requires Initial(s)
    ensures s.retries == []
  {
  }

  // ---------------------------------------------------------------- no starvation

  /** The polls that complete in the course of the actions: those whose batch is, or becomes, empty. */
  function PollsDone(states: seq<RetryState>, actions: seq<Action>): nat
    requires |states| == |actions| + 1
    decreases |actions|
  {
    if actions == [] then 0 else
      var n := |actions| - 1;
      PollsDone(states[..n + 1], actions[..n])
      + if (actions[n].DoBegin? || actions[n].DoHandle?) && states[n + 1].inflight == [] then 1 else 0
  }

  function UpdatesLost(actions: seq<Action>): nat {
    if actions == [] then 0 else
      var a := actions[|actions| - 1];
      UpdatesLost(actions[..|actions| - 1]) + if a.DoHandle? && !a.answer.updateOk then 1 else 0
  }

  function HandlerCalls(actions: seq<Action>): nat {
    if actions == [] then 0 else
      HandlerCalls(actions[..|actions| - 1]) + if actions[|actions| - 1].DoHandle? then 1 else 0
  }

  /** The counters are those of the actions. */
  lemma {:induction false} CountersAreTrue(p: Policy, states: seq<RetryState>, actions: seq<Action>)
    requires Execution(p, states, actions)
    ensures var h0, h := states[0].hist, states[|actions|].hist;
            && h.polls == h0.polls + PollsDone(states, actions)
            && h.updatesLost == h0.updatesLost + UpdatesLost(actions)
            && |h.handled| == |h0.handled| + HandlerCalls(actions)
  {
    hide Apply, Enabled;
    if actions != [] {
      var n := |actions| - 1;
      CountersAreTrue(p, states[..n + 1], actions[..n]);
      assert states[..n + 1][0] == states[0];
      CounterStep(p, states[n], actions[n]);
    }
  }

  lemma CounterStep(p: Policy, s: RetryState, a: Action)
    requires Enabled(s, a)
    ensures var t := Apply(p, s, a);
            && t.hist.polls == s.hist.polls + (if (a.DoBegin? || a.DoHandle?) && t.inflight == [] then 1 else 0)
            && t.hist.updatesLost == s.hist.updatesLost + (if a.DoHandle? && !a.answer.updateOk then 1 else 0)
            && |t.hist.handled| == |s.hist.handled| + (if a.DoHandle? then 1 else 0)
            && (a.DoHandle? ==> t.hist.handled == s.hist.handled + [s.inflight[0].id])
            && (!a.DoHandle? ==> t.hist.handled == s.hist.handled)
  {
    hide Delay, Lived, UpdateRetry, AfterCall, Dead, FoundOr;
  }

  lemma {:induction false} HandledMeansCalled(p: Policy, states: seq<RetryState>, actions: seq<Action>, id: nat)
    requires Execution(p, states, actions)
    ensures states[0].hist.handled <= states[|actions|].hist.handled
    ensures id in states[|actions|].hist.handled[|states[0].hist.handled|..] ==>
              exists i | 0 <= i < |actions| :: HandlesNow(states[i], actions[i], id)
  {
    hide Apply;
    if actions != [] {
      var n := |actions| - 1;
      HandledMeansCalled(p, states[..n + 1], actions[..n], id);
      CounterStep(p, states[n], actions[n]);
      var h0, h, h' := states[0].hist.handled, states[n].hist.handled, states[n + 1].hist.handled;
      if id in h'[|h0|..] {
        if id in h[|h0|..] {
          var i :| 0 <= i < n && HandlesNow(states[..n + 1][i], actions[..n][i], id);
          assert HandlesNow(states[i], actions[i], id);
        } else {
          assert h'[|h0|..] == h[|h0|..] + h'[|h|..];
          assert HandlesNow(states[n], actions[n], id);
        }
      }
    }
  }

  predicate Taking(inflight: seq<Taken>, id: nat) {
    exists k | 0 <= k < |inflight| :: inflight[k].id == id
  }

  /** Pending records at or before t, plus a batch for every poll since, less updates lost since. */
  function Rank(s: RetryState, t: int, polls0: nat, lost0: nat): int {
    SumOf(s.retries, PendingBy(t)) + BATCH * (s.hist.polls - polls0) - (s.hist.updatesLost - lost0)
  }

  /** Since the state with the given counters, `id` has not been handled and has moved up accordingly. */
  ghost predicate Waiting(s: RetryState, id: nat, t: int, k: int, polls0: nat, lost0: nat) {
    && id < |s.retries| && s.retries[id].status.Pending? && s.retries[id].nextRetryAt == t <= s.now
    && Rank(s, t, polls0, lost0) <= k
    && (s.inflight != [] ==>
          || Taking(s.inflight, id)
          || (|s.inflight| <= BATCH
              && (forall j | 0 <= j < |s.inflight| :: s.inflight[j].record.nextRetryAt <= t)
              && Rank(s, t, polls0, lost0) + BATCH - |s.inflight| <= k))
  }

  ghost predicate AlwaysWaits(p: Policy) {
    forall n: nat :: Delay(p, n) > 0
  }

  lemma BeginWaiting(p: Policy, s: RetryState, a: Action, id: nat, t: int, k: int, polls0: nat, lost0: nat)
    requires InflightOk(s) && a.DoBegin? && Enabled(s, a) && Waiting(s, id, t, k, polls0, lost0)
    ensures Waiting(Apply(p, s, a), id, t, k, polls0, lost0)
  {
    hide SumOf;
    var s' := Apply(p, s, a);
    assert Due(a.at)(s.retries[id]);
    if id in a.ids {
      var j :| 0 <= j < |a.ids| && a.ids[j] == id;
      assert s'.inflight[j].id == id;
    } else {
      assert |a.ids| == BATCH;
      forall j | 0 <= j < |s'.inflight| ensures s'.inflight[j].record.nextRetryAt <= t {
        assert Earlier()(s.retries[a.ids[j]], s.retries[id]);
      }
    }
  }

  lemma HandleWaiting(p: Policy, s: RetryState, a: Answer, id: nat, t: int, k: int, polls0: nat, lost0: nat)
    requires InflightOk(s) && Enabled(s, DoHandle(a)) && AlwaysWaits(p)
    requires Waiting(s, id, t, k, polls0, lost0) && s.inflight[0].id != id
    ensures Waiting(HandleNext(p, s, a), id, t, k, polls0, lost0)
  {
    hide SumOf, Delay, Lived, UpdateRetry, Dead;
    var s', x := HandleNext(p, s, a), s.inflight[0];
    UpdateIsWhole(p, s, a);
    SumUpdate(s.retries, x.id, AfterCall(p, x.record, a), PendingBy(t));
    if Taking(s.inflight, id) {
      var j :| 0 <= j < |s.inflight| && s.inflight[j].id == id;
      assert s'.inflight[j - 1].id == id;
    }
  }

  lemma {:induction false} StaysWaiting(p: Policy, states: seq<RetryState>, actions: seq<Action>, id: nat, t: int,
                                        k: int)
    requires Execution(p, states, actions) && AlwaysWaits(p)
    requires Inv(p, states[0]) && Waiting(states[0], id, t, k, states[0].hist.polls, states[0].hist.updatesLost)
    ensures Inv(p, states[|actions|])
    ensures var s0, s := states[0], states[|actions|];
            && s0.hist.handled <= s.hist.handled
            && (id in s.hist.handled[|s0.hist.handled|..] || Waiting(s, id, t, k, s0.hist.polls, s0.hist.updatesLost))
  {
    if actions != [] {
      var n := |actions| - 1;
      StaysWaiting(p, states[..n + 1], actions[..n], id, t, k);
      var s0, s, a := states[0], states[n], actions[n];
      assert Enabled(s, a) && states[n + 1] == Apply(p, s, a);
      StepKeeps(p, s, a);
      StepWaiting(p, s, a, id, t, k, s0.hist.polls, s0.hist.updatesLost, |s0.hist.handled|);
    }
  }

  lemma StepWaiting(p: Policy, s: RetryState, a: Action, id: nat, t: int, k: int, polls0: nat, lost0: nat, from: nat)
    requires Inv(p, s) && Enabled(s, a) && AlwaysWaits(p) && from <= |s.hist.handled|
    requires id in s.hist.handled[from..] || Waiting(s, id, t, k, polls0, lost0)
    ensures var s' := Apply(p, s, a);
            && s.hist.handled <= s'.hist.handled
            && (id in s'.hist.handled[from..] || Waiting(s', id, t, k, polls0, lost0))
  {
    hide SumOf, Delay, Balanced, Measured, RecordOk, Lived, AfterCall, UpdateRetry;
    var s' := Apply(p, s, a);
    if id in s.hist.handled[from..] {
      var j :| from <= j < |s.hist.handled| && s.hist.handled[j] == id;
      assert s'.hist.handled[j] == id;
      assert s'.hist.handled[from..][j - from] == id;
    } else {
      match a
      case DoSchedule(_, _, _, _, _, _, _) =>
        if |s'.retries| > |s.retries| {
          SumAppend(s.retries, s'.retries[|s.retries|], PendingBy(t));
        }
      case DoBegin(_, _) => BeginWaiting(p, s, a, id, t, k, polls0, lost0);
      case DoHandle(answer) =>
        if s.inflight[0].id == id {
          assert s'.hist.handled[from..][|s.hist.handled| - from] == id;
        } else {
          HandleWaiting(p, s, answer, id, t, k, polls0, lost0);
        }
      case DoCrash =>
    }
  }

  lemma NoStarvationByHistory(p: Policy, states: seq<RetryState>, actions: seq<Action>, id: nat)
    requires Execution(p, states, actions) && AlwaysWaits(p)
    requires Inv(p, states[0]) && states[0].inflight == []
    requires id < |states[0].retries| && Due(states[0].now)(states[0].retries[id])
    ensures var s0, s := states[0], states[|actions|];
            var k := SumOf(s0.retries, PendingBy(s0.retries[id].nextRetryAt));
            && s0.hist.handled <= s.hist.handled
            && (id in s.hist.handled[|s0.hist.handled|..]
                || BATCH * (s.hist.polls - s0.hist.polls) < k + (s.hist.updatesLost - s0.hist.updatesLost))
  {
    var s0, s := states[0], states[|actions|];
    var t := s0.retries[id].nextRetryAt;
    var k := SumOf(s0.retries, PendingBy(t));
    StaysWaiting(p, states, actions, id, t, k);
    if Waiting(s, id, t, k, s0.hist.polls, s0.hist.updatesLost) {
      SumAtLeast(s.retries, id, PendingBy(t));
    }
  }

  /**
   * A pending record that is due, with k pending records at or before its time, itself included,
   * is handled before ceil(k/100) polls have completed, every update lost meanwhile counting as
   * one more record: whatever the handlers return, whatever is scheduled, and however often the
   * poller dies and starts again.
   */
  lemma NoStarvation(p: Policy, states: seq<RetryState>, actions: seq<Action>, id: nat)
    requires Execution(p, states, actions) && AlwaysWaits(p)
    requires Inv(p, states[0]) && states[0].inflight == [] && id < |states[0].retries|
    requires states[0].retries[id].status.Pending? && states[0].retries[id].nextRetryAt <= states[0].now
    ensures var k := SumOf(states[0].retries, PendingBy(states[0].retries[id].nextRetryAt));
            || (exists i | 0 <= i < |actions| :: HandlesNow(states[i], actions[i], id))
            || 100 * PollsDone(states, actions) < k + UpdatesLost(actions)
  {
    hide Inv, Apply, Enabled, PollsDone, SumOf, UpdatesLost, AlwaysWaits, PendingBy;
    assert Due(states[0].now)(states[0].retries[id]);
    NoStarvationByHistory(p, states, actions, id);
    HandledMeansCalled(p, states, actions, id);
    CountersAreTrue(p, states, actions);
  }
}
