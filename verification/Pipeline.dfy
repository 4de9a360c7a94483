/**
 * The consumer worker: one partition of a topic, its handler, the offset it commits, the offset it
 * audits, and the retry tables its failures go to, which other partitions write to as well.
 * Everything may die at any point between two steps and start again at the committed offset.
 */
module Pipeline {
  import opened Prelude
  import opened Backoff
  import opened Retry

  // ---------------------------------------------------------------- the handler

  datatype Flag = Absent | Boolean(b: bool) | Other

  /** A message value as the handler reads it. A JSON null decodes to an object without keys. */
  datatype Body = NotAnObject | Object(simulateFailure: Flag)

  datatype Message = Message(headers: seq<(string, string)>, body: Body)

  /** The value of the first header with the key, or the empty string. */
  function HeaderValue(headers: seq<(string, string)>, key: string): (v: string)
    ensures forall i | 0 <= i < |headers| && headers[i].0 == key && (forall j | 0 <= j < i :: headers[j].0 != key) ::
              v == headers[i].1
    ensures (forall i | 0 <= i < |headers| :: headers[i].0 != key) ==> v == ""
  {
    if headers == [] then ""
    else if headers[0].0 == key then headers[0].1
    else HeaderValue(headers[1..], key)
  }

  function EventId(m: Message): string {
    HeaderValue(m.headers, "event_id")
  }

  /** The error, if the message cannot be processed. */
  function ProcessEvent(body: Body): Option<string> {
    match body
    case NotAnObject => Some("invalid JSON")
    case Object(Boolean(true)) => Some("simulated galactic commerce failure")
    case Object(_) => None
  }

  /** SELECT COALESCE(MAX(attempt), 0) FROM retries WHERE event_id = e. */
  function GetMaxRetryAttempt(retries: seq<RetryRecord>, e: string): (m: nat)
    ensures forall i | 0 <= i < |retries| && retries[i].eventId == e :: retries[i].attempt <= m
    ensures m > 0 ==> exists i | 0 <= i < |retries| :: retries[i].eventId == e && retries[i].attempt == m
  {
    if retries == [] then 0 else
      var rest := GetMaxRetryAttempt(retries[..|retries| - 1], e);
      var last := retries[|retries| - 1];
      if last.eventId == e && last.attempt > rest then last.attempt else rest
  }

  // ---------------------------------------------------------------- the step machine

  /**
   * `inHand` is a message handled but not yet committed. `succeeded`, `staleReads` and `upsertsLost`
   * are history: offsets handled without error, events scheduled at less than the attempt their
   * records had reached, lost audits.
   */
  datatype Pipe = Pipe(
    log: seq<Message>, position: nat, committed: nat, inHand: Option<nat>, audit: Option<nat>,
    succeeded: set<nat>, staleReads: seq<string>, upsertsLost: nat, rs: RetryState)

  /** How the attempt of an event is read: not at all, or as it is now, or as it was before others wrote. */
  datatype Read = ReadFails | ReadNow | ReadBefore(attempt: nat)

  /** What a delivery meets: the time, its read of the attempt, and which of its store calls succeed. */
  datatype Env = Env(at: int, read: Read, createOk: bool, dlqOk: bool, upsertOk: bool, commitOk: bool)

  datatype Step =
    | Append(m: Message)
    | Deliver(env: Env)
    | Commit(ok: bool)
    | Crash
    | Elsewhere(eventId: string, error: string, env: Env)
    | Poller(a: Action)

  function AttemptRead(retries: seq<RetryRecord>, e: string, read: Read): nat {
    match read
    case ReadFails => 0
    case ReadNow => GetMaxRetryAttempt(retries, e)
    case ReadBefore(attempt) => attempt
  }

  /** An event that failed is scheduled at the attempt its records have reached, as far as was read. */
  function Reschedule(p: Policy, topic: string, s: Pipe, e: string, error: string, env: Env): Pipe {
    var attempt := AttemptRead(s.rs.retries, e, env.read);
    s.(staleReads := if attempt < GetMaxRetryAttempt(s.rs.retries, e) then s.staleReads + [e] else s.staleReads,
       rs := Schedule(p, s.rs, env.at, e, topic, error, attempt, env.createOk, env.dlqOk))
  }

  function DeliverNext(p: Policy, topic: string, s: Pipe, env: Env): Pipe
    requires s.position < |s.log|
  {
    var o, m := s.position, s.log[s.position];
    var s := s.(position := o + 1);
    var error := ProcessEvent(m.body);
    if error.Some? then
      Reschedule(p, topic, s, EventId(m), error.value, env)
    else
      s.(audit := if env.upsertOk then Some(o) else s.audit,
         upsertsLost := s.upsertsLost + (if env.upsertOk then 0 else 1),
         succeeded := s.succeeded + {o}, inHand := Some(o), rs := s.rs.(now := env.at))
  }

  function CommitInHand(s: Pipe, ok: bool): Pipe
    requires s.inHand.Some?
  {
    s.(inHand := None, committed := if ok then s.inHand.value + 1 else s.committed)
  }

  ghost predicate Possible(s: Pipe, a: Step) {
    match a
    case Append(_) => true
    case Deliver(env) => s.inHand.None? && s.position < |s.log| && s.rs.now <= env.at
    case Commit(_) => s.inHand.Some?
    case Crash => true
    case Elsewhere(_, _, env) => s.rs.now <= env.at
    case Poller(a) => (a.DoBegin? || a.DoHandle?) && Enabled(s.rs, a)
  }

  function Next(p: Policy, topic: string, s: Pipe, a: Step): Pipe
    requires Possible(s, a)
  {
    match a
    case Append(m) => s.(log := s.log + [m])
    case Deliver(env) => DeliverNext(p, topic, s, env)
    case Commit(ok) => CommitInHand(s, ok)
    case Crash => s.(position := s.committed, inHand := None, rs := s.rs.(inflight := []))
    case Elsewhere(e, error, env) => Reschedule(p, topic, s, e, error, env)
    case Poller(a) => s.(rs := Apply(p, s.rs, a))
  }

  ghost predicate Run(p: Policy, topic: string, states: seq<Pipe>, steps: seq<Step>) {
    && |states| == |steps| + 1
    && forall i | 0 <= i < |steps| ::
         Possible(states[i], steps[i]) && states[i + 1] == Next(p, topic, states[i], steps[i])
  }

  /** The step machine's runs compose. */
  lemma RunsCompose(p: Policy, topic: string, first: seq<Pipe>, steps: seq<Step>, rest: seq<Pipe>, more: seq<Step>)
    requires Run(p, topic, first, steps) && Run(p, topic, rest, more) && rest[0] == first[|steps|]
    ensures Run(p, topic, first + rest[1..], steps + more)
    ensures (first + rest[1..])[|steps + more|] == rest[|more|]
  {
    hide Possible, Next;
    var states, all := first + rest[1..], steps + more;
    forall i | 0 <= i < |all|
      ensures Possible(states[i], all[i]) && states[i + 1] == Next(p, topic, states[i], all[i])
    {
      if i >= |steps| {
        var j := i - |steps|;
        assert states[i] == rest[j] && states[i + 1] == rest[j + 1] && all[i] == more[j];
      }
    }
  }

  lemma NoSteps(p: Policy, topic: string, s: Pipe)
    ensures Run(p, topic, [s], [])
  {
  }

  lemma RunLength(p: Policy, topic: string, states: seq<Pipe>, steps: seq<Step>)
    requires Run(p, topic, states, steps)
    ensures |states| == |steps| + 1
  {
  }

  predicate Fresh(s: Pipe) {
    s.position == s.committed == 0 && s.inHand == None && s.audit == None
    && s.succeeded == {} && s.staleReads == [] && s.upsertsLost == 0 && Initial(s.rs)
  }

  // ---------------------------------------------------------------- invariants

  predicate Recorded(rs: RetryState, e: string) {
    exists i | 0 <= i < |rs.retries| :: rs.retries[i].eventId == e
  }

  predicate DeadLettered(rs: RetryState, e: string) {
    exists d | 0 <= d < |rs.dlq| :: rs.dlq[d].eventId == e
  }

  predicate WriteLost(rs: RetryState, e: string) {
    e in rs.hist.createsLost || e in rs.hist.dlqLost
  }

  predicate Kept(rs: RetryState, e: string) {
    Recorded(rs, e) || DeadLettered(rs, e) || WriteLost(rs, e)
  }

  /** A failed record has its dead letter, unless that write was lost. */
  ghost predicate FailedAreDead(rs: RetryState) {
    forall i | 0 <= i < |rs.retries| && rs.retries[i].status.Failed? ::
      DeadLettered(rs, rs.retries[i].eventId) || rs.retries[i].eventId in rs.hist.dlqLost
  }

  predicate OffsetsOk(s: Pipe) {
    && s.committed <= s.position <= |s.log|
    && (s.inHand.Some? ==> s.inHand.value + 1 == s.position && s.committed <= s.inHand.value)
    && (s.upsertsLost == 0 ==>
          && (s.committed > 0 ==> s.audit.Some? && s.committed <= s.audit.value + 1)
          && (s.inHand.Some? ==> s.audit == s.inHand))
  }

  ghost predicate Safe(s: Pipe, o: nat)
    requires o < |s.log|
  {
    o in s.succeeded || Kept(s.rs, EventId(s.log[o]))
  }

  function RecordsFor(e: string): RetryRecord -> nat {
    (r: RetryRecord) => if r.eventId == e then 1 else 0
  }

  /** The records of e number no more than the attempts they have reached, nor than the limit, stale reads apart. */
  predicate Bounded(p: Policy, s: Pipe, e: string) {
    var n, extra := SumOf(s.rs.retries, RecordsFor(e)), SumOf(s.staleReads, Is(Some(e)));
    n <= GetMaxRetryAttempt(s.rs.retries, e) + extra && n <= Max(0, p.maxAttempts) + extra
  }

  ghost predicate PipeInv(p: Policy, s: Pipe) {
    && Inv(p, s.rs) && FailedAreDead(s.rs) && OffsetsOk(s)
    && (forall o | 0 <= o < s.position :: Safe(s, o))
    && (forall e :: Bounded(p, s, e))
  }

  // ---------------------------------------------------------------- what the retry steps do to a pipe

  /** Nothing known of an event in `rs` is forgotten in `rs'`, and attempts only grow. */
  ghost predicate Remembers(rs: RetryState, rs': RetryState) {
    && |rs.retries| <= |rs'.retries|
    && (forall i | 0 <= i < |rs.retries| ::
          rs'.retries[i].eventId == rs.retries[i].eventId && rs.retries[i].attempt <= rs'.retries[i].attempt)
    && rs.dlq <= rs'.dlq && rs.hist.createsLost <= rs'.hist.createsLost && rs.hist.dlqLost <= rs'.hist.dlqLost
  }

  lemma RememberedStaysKept(rs: RetryState, rs': RetryState, e: string)
    requires Remembers(rs, rs')
    ensures Kept(rs, e) ==> Kept(rs', e)
    ensures DeadLettered(rs, e) ==> DeadLettered(rs', e)
    ensures e in rs.hist.dlqLost ==> e in rs'.hist.dlqLost
    ensures GetMaxRetryAttempt(rs.retries, e) <= GetMaxRetryAttempt(rs'.retries, e)
  {
    if i :| 0 <= i < |rs.retries| && rs.retries[i].eventId == e {
      assert rs'.retries[i].eventId == e;
    }
    if d :| 0 <= d < |rs.dlq| && rs.dlq[d].eventId == e {
      assert rs'.dlq[d].eventId == e;
    }
    if k :| 0 <= k < |rs.hist.createsLost| && rs.hist.createsLost[k] == e {
      assert rs'.hist.createsLost[k] == e;
    }
    if k :| 0 <= k < |rs.hist.dlqLost| && rs.hist.dlqLost[k] == e {
      assert rs'.hist.dlqLost[k] == e;
    }
    if GetMaxRetryAttempt(rs.retries, e) > 0 {
      var i :| && 0 <= i < |rs.retries| && rs.retries[i].eventId == e
               && rs.retries[i].attempt == GetMaxRetryAttempt(rs.retries, e);
      assert rs'.retries[i].eventId == e;
    }
  }

  lemma ScheduleRemembers(p: Policy, rs: RetryState, a: Action)
    requires a.DoSchedule? && Enabled(rs, a) && FailedAreDead(rs)
    ensures var rs' := Apply(p, rs, a);
            Remembers(rs, rs') && Kept(rs', a.eventId) && FailedAreDead(rs')
  {
    hide Delay, GetMaxRetryAttempt;
    var rs' := Apply(p, rs, a);
    if a.attempt >= p.maxAttempts {
      if a.dlqOk { assert rs'.dlq[|rs.dlq|].eventId == a.eventId; }
      else { assert rs'.hist.dlqLost[|rs.hist.dlqLost|] == a.eventId; }
    } else if a.createOk {
      assert rs'.retries[|rs.retries|].eventId == a.eventId;
    } else {
      assert rs'.hist.createsLost[|rs.hist.createsLost|] == a.eventId;
    }
    forall i | 0 <= i < |rs'.retries| && rs'.retries[i].status.Failed?
      ensures DeadLettered(rs', rs'.retries[i].eventId) || rs'.retries[i].eventId in rs'.hist.dlqLost
    {
      RememberedStaysKept(rs, rs', rs.retries[i].eventId);
    }
  }

  lemma HandleRemembers(p: Policy, rs: RetryState, a: Answer)
    requires InflightOk(rs) && Enabled(rs, DoHandle(a)) && FailedAreDead(rs)
    ensures var rs' := HandleNext(p, rs, a);
            Remembers(rs, rs') && FailedAreDead(rs') && |rs'.retries| == |rs.retries|
  {
    hide Delay, GetMaxRetryAttempt, Kept;
    var rs', t := HandleNext(p, rs, a), rs.inflight[0];
    var r := AfterCall(p, t.record, a);
    UpdateIsWhole(p, rs, a);
    if r.status.Failed? {
      if a.dlqOk { assert rs'.dlq[|rs.dlq|].eventId == r.eventId; }
      else { assert rs'.hist.dlqLost[|rs.hist.dlqLost|] == r.eventId; }
    }
    forall i | 0 <= i < |rs'.retries| && rs'.retries[i].status.Failed?
      ensures DeadLettered(rs', rs'.retries[i].eventId) || rs'.retries[i].eventId in rs'.hist.dlqLost
    {
      RememberedStaysKept(rs, rs', rs.retries[i].eventId);
    }
  }

  // ---------------------------------------------------------------- every step keeps the invariants

  lemma RescheduleKeeps(p: Policy, topic: string, s: Pipe, e: string, error: string, env: Env)
    requires Inv(p, s.rs) && FailedAreDead(s.rs) && s.rs.now <= env.at && forall e :: Bounded(p, s, e)
    ensures var s' := Reschedule(p, topic, s, e, error, env);
            && Inv(p, s'.rs) && FailedAreDead(s'.rs) && Remembers(s.rs, s'.rs) && Kept(s'.rs, e)
            && forall e :: Bounded(p, s', e)
  {
    hide SumOf, Delay, Inv, GetMaxRetryAttempt, FailedAreDead, Kept;
    var s' := Reschedule(p, topic, s, e, error, env);
    var attempt := AttemptRead(s.rs.retries, e, env.read);
    var a := DoSchedule(env.at, e, topic, error, attempt, env.createOk, env.dlqOk);
    assert s'.rs == Apply(p, s.rs, a);
    StepKeeps(p, s.rs, a);
    ScheduleRemembers(p, s.rs, a);
    hide Schedule;
    forall x ensures Bounded(p, s', x) {
      assert Bounded(p, s, x);
      RescheduleBounded(p, topic, s, e, error, env, x);
    }
  }

  lemma RescheduleBounded(p: Policy, topic: string, s: Pipe, e: string, error: string, env: Env, x: string)
    requires Bounded(p, s, x)
    requires Remembers(s.rs, Reschedule(p, topic, s, e, error, env).rs)
    ensures Bounded(p, Reschedule(p, topic, s, e, error, env), x)
  {
    hide SumOf, Delay, GetMaxRetryAttempt, AttemptRead, Kept;
    var s' := Reschedule(p, topic, s, e, error, env);
    RememberedStaysKept(s.rs, s'.rs, x);
    SumAppend(s.staleReads, e, Is(Some(x)));
    if |s'.rs.retries| > |s.rs.retries| {
      var r := s'.rs.retries[|s.rs.retries|];
      SumAppend(s.rs.retries, r, RecordsFor(x));
      if x == e { assert r.attempt <= GetMaxRetryAttempt(s'.rs.retries, e); }
    }
  }

  lemma DeliverKeeps(p: Policy, topic: string, s: Pipe, env: Env)
    requires PipeInv(p, s) && Possible(s, Deliver(env))
    ensures PipeInv(p, DeliverNext(p, topic, s, env))
  {
    hide SumOf, Delay, Inv, GetMaxRetryAttempt, FailedAreDead, Kept, Bounded, Schedule;
    var s', m := DeliverNext(p, topic, s, env), s.log[s.position];
    if ProcessEvent(m.body).Some? {
      var here := s.(position := s.position + 1);
      forall e ensures Bounded(p, here, e) { assert Bounded(p, s, e); SameTables(p, s, here, e); }
      RescheduleKeeps(p, topic, here, EventId(m), ProcessEvent(m.body).value, env);
      forall o | 0 <= o < s'.position ensures Safe(s', o) {
        if o < s.position { assert Safe(s, o); }
        RememberedStaysKept(s.rs, s'.rs, EventId(s.log[o]));
      }
    } else {
      ClockOnly(p, s.rs, env.at);
      forall e ensures Bounded(p, s', e) { assert Bounded(p, s, e); SameTables(p, s, s', e); }
      forall o | 0 <= o < s'.position ensures Safe(s', o) {
        if o < s.position { assert Safe(s, o); RememberedStaysKept(s.rs, s'.rs, EventId(s.log[o])); }
      }
    }
  }

  lemma SameTables(p: Policy, s: Pipe, s': Pipe, e: string)
    requires s'.rs.retries == s.rs.retries && s'.staleReads == s.staleReads
    ensures Bounded(p, s, e) == Bounded(p, s', e)
  {
  }

  /** Neither the clock nor the batch in progress matters to what is kept. */
  lemma ClockOnly(p: Policy, rs: RetryState, at: int)
    requires Inv(p, rs) && FailedAreDead(rs) && rs.now <= at
    ensures var rs' := rs.(now := at); Inv(p, rs') && FailedAreDead(rs') && Remembers(rs, rs')
  {
    hide SumOf;
    var rs' := rs.(now := at);
    forall e ensures Retry.Balanced(rs', e) { assert Retry.Balanced(rs, e); }
    forall i | 0 <= i < |rs.retries| && rs.retries[i].status.Failed?
      ensures DeadLettered(rs', rs.retries[i].eventId) || rs.retries[i].eventId in rs'.hist.dlqLost
    {
      if d :| 0 <= d < |rs.dlq| && rs.dlq[d].eventId == rs.retries[i].eventId {
        assert rs'.dlq[d].eventId == rs.retries[i].eventId;
      }
    }
  }

  lemma PollerKeeps(p: Policy, s: Pipe, a: Action)
    requires PipeInv(p, s) && (a.DoBegin? || a.DoHandle? || a.DoCrash?) && Enabled(s.rs, a)
    ensures PipeInv(p, s.(rs := Apply(p, s.rs, a)))
    ensures Remembers(s.rs, Apply(p, s.rs, a))
  {
    hide SumOf, Delay, Inv, GetMaxRetryAttempt, FailedAreDead, Kept, HandleNext;
    var s' := s.(rs := Apply(p, s.rs, a));
    StepKeeps(p, s.rs, a);
    if a.DoHandle? {
      InvParts(p, s.rs);
      HandleRemembers(p, s.rs, a.answer);
    } else {
      SameDead(s.rs, s'.rs);
    }
    forall e ensures Bounded(p, s', e) {
      assert Bounded(p, s, e);
      SumSame(s.rs.retries, s'.rs.retries, RecordsFor(e));
      RememberedStaysKept(s.rs, s'.rs, e);
    }
    forall o | 0 <= o < s'.position ensures Safe(s', o) {
      assert Safe(s, o);
      RememberedStaysKept(s.rs, s'.rs, EventId(s.log[o]));
    }
  }

  lemma InvParts(p: Policy, rs: RetryState)
    requires Inv(p, rs)
    ensures InflightOk(rs)
  {
  }

  lemma SameDead(rs: RetryState, rs': RetryState)
    requires rs'.retries == rs.retries && rs'.dlq == rs.dlq
    requires rs'.hist.createsLost == rs.hist.createsLost && rs'.hist.dlqLost == rs.hist.dlqLost
    ensures Remembers(rs, rs') && (FailedAreDead(rs) ==> FailedAreDead(rs'))
  {
    forall e ensures DeadLettered(rs, e) ==> DeadLettered(rs', e) {
      if d :| 0 <= d < |rs.dlq| && rs.dlq[d].eventId == e { assert rs'.dlq[d].eventId == e; }
    }
  }

  lemma ElsewhereKeeps(p: Policy, topic: string, s: Pipe, e: string, error: string, env: Env)
    requires PipeInv(p, s) && s.rs.now <= env.at
    ensures var s' := Reschedule(p, topic, s, e, error, env);
            PipeInv(p, s') && Remembers(s.rs, s'.rs)
  {
    hide SumOf, Delay, Inv, GetMaxRetryAttempt, FailedAreDead, Kept, Bounded, Schedule;
    var s' := Reschedule(p, topic, s, e, error, env);
    RescheduleKeeps(p, topic, s, e, error, env);
    forall o | 0 <= o < s'.position ensures Safe(s', o) {
      assert Safe(s, o);
      RememberedStaysKept(s.rs, s'.rs, EventId(s.log[o]));
    }
  }

  lemma NextKeeps(p: Policy, topic: string, s: Pipe, a: Step)
    requires PipeInv(p, s) && Possible(s, a)
    ensures PipeInv(p, Next(p, topic, s, a))
    ensures s.committed <= Next(p, topic, s, a).committed
  {
    hide SumOf, Delay, Inv, GetMaxRetryAttempt, FailedAreDead, Kept, Bounded, Schedule;
    var s' := Next(p, topic, s, a);
    match a
    case Append(m) =>
      forall o | 0 <= o < s'.position ensures Safe(s', o) { assert Safe(s, o); }
      forall e ensures Bounded(p, s', e) { assert Bounded(p, s, e); SameTables(p, s, s', e); }
    case Deliver(env) => DeliverKeeps(p, topic, s, env);
    case Commit(ok) =>
      forall o | 0 <= o < s'.position ensures Safe(s', o) { assert Safe(s, o); }
      forall e ensures Bounded(p, s', e) { assert Bounded(p, s, e); SameTables(p, s, s', e); }
    case Crash =>
      PollerKeeps(p, s, DoCrash);
      var mid := s.(rs := Apply(p, s.rs, DoCrash));
      forall o | 0 <= o < s'.position ensures Safe(s', o) { assert Safe(mid, o); }
      forall e ensures Bounded(p, s', e) { assert Bounded(p, mid, e); SameTables(p, mid, s', e); }
    case Elsewhere(e, error, env) => ElsewhereKeeps(p, topic, s, e, error, env);
    case Poller(b) => PollerKeeps(p, s, b);
  }

  lemma FreshKept(p: Policy, s: Pipe)
    requires Fresh(s)
    ensures PipeInv(p, s)
  {
  }

  lemma {:induction false} PipeInvHolds(p: Policy, topic: string, states: seq<Pipe>, steps: seq<Step>)
    requires Run(p, topic, states, steps) && Fresh(states[0])
    ensures PipeInv(p, states[|steps|])
  {
    hide PipeInv, Next, Fresh;
    if steps == [] {
      FreshKept(p, states[0]);
    } else {
      var n := |steps| - 1;
      PipeInvHolds(p, topic, states[..n + 1], steps[..n]);
      NextKeeps(p, topic, states[n], steps[n]);
    }
  }

  lemma {:induction false} CommittedNeverDecreases(p: Policy, topic: string, states: seq<Pipe>, steps: seq<Step>,
                                                  i: nat)
    requires Run(p, topic, states, steps) && Fresh(states[0]) && i <= |steps|
    ensures states[i].committed <= states[|steps|].committed
  {
    hide PipeInv, Next, Fresh;
    if i < |steps| {
      var n := |steps| - 1;
      CommittedNeverDecreases(p, topic, states[..n + 1], steps[..n], i);
      PipeInvHolds(p, topic, states[..n + 1], steps[..n]);
      NextKeeps(p, topic, states[n], steps[n]);
    }
  }

  // ---------------------------------------------------------------- main results

  /** Where an offset below the committed one can be found. */
  predicate Accounted(s: Pipe, o: nat)
    requires o < |s.log|
  {
    var e := EventId(s.log[o]);
    || o in s.succeeded
    || (exists i | 0 <= i < |s.rs.retries| :: s.rs.retries[i].eventId == e && !s.rs.retries[i].status.Failed?)
    || DeadLettered(s.rs, e)
  }

  /**
   * No silent loss: in every run, every offset below the committed one was handled without error,
   * or its event has a pending or completed retry record or a dead letter, unless one of the
   * writes that were to record that very event was itself lost.
   */
  lemma NoSilentLoss(p: Policy, topic: string, states: seq<Pipe>, steps: seq<Step>, o: nat)
    requires Run(p, topic, states, steps) && Fresh(states[0]) && o < states[|steps|].committed
    ensures var s := states[|steps|];
            o < |s.log| && (Accounted(s, o) || WriteLost(s.rs, EventId(s.log[o])))
  {
    hide SumOf, Inv, Bounded, GetMaxRetryAttempt;
    PipeInvHolds(p, topic, states, steps);
    var s := states[|steps|];
    var e := EventId(s.log[o]);
    assert Safe(s, o);
    if i :| 0 <= i < |s.rs.retries| && s.rs.retries[i].eventId == e {
      if !s.rs.retries[i].status.Failed? {
        assert Accounted(s, o);
      } else {
        assert DeadLettered(s.rs, e) || e in s.rs.hist.dlqLost;
      }
    }
  }

  /** The handler that the worker gives to the poller reports an error whatever the record. */
  ghost predicate RetriesAlwaysFail(steps: seq<Step>) {
    forall i | 0 <= i < |steps| && steps[i].Poller? && steps[i].a.DoHandle? :: steps[i].a.answer.error.Some?
  }

  ghost predicate NoneCompleted(rs: RetryState) {
    forall i | 0 <= i < |rs.retries| :: !rs.retries[i].status.Completed?
  }

  lemma NextCompletesNone(p: Policy, topic: string, s: Pipe, a: Step)
    requires Possible(s, a) && NoneCompleted(s.rs) && (a.Poller? && a.a.DoHandle? ==> a.a.answer.error.Some?)
    ensures NoneCompleted(Next(p, topic, s, a).rs)
  {
    hide Delay, GetMaxRetryAttempt, HeaderValue, SumOf;
  }

  lemma {:induction false} NothingCompletes(p: Policy, topic: string, states: seq<Pipe>, steps: seq<Step>)
    requires Run(p, topic, states, steps) && NoneCompleted(states[0].rs) && RetriesAlwaysFail(steps)
    ensures NoneCompleted(states[|steps|].rs)
  {
    hide NoneCompleted, Next, Possible;
    if steps != [] {
      var n := |steps| - 1;
      NothingCompletes(p, topic, states[..n + 1], steps[..n]);
      NextCompletesNone(p, topic, states[n], steps[n]);
    }
  }

  /**
   * With that handler no retry ever completes, so every offset below the committed one succeeded
   * when it was delivered, or its event is still pending or dead-lettered, lost writes apart.
   */
  lemma NoSilentLossInWorker(p: Policy, topic: string, states: seq<Pipe>, steps: seq<Step>, o: nat)
    requires Run(p, topic, states, steps) && Fresh(states[0])
    requires RetriesAlwaysFail(steps) && o < states[|steps|].committed
    ensures var s := states[|steps|];
            && o < |s.log|
            && var e := EventId(s.log[o]);
            || o in s.succeeded || DeadLettered(s.rs, e) || WriteLost(s.rs, e)
            || exists i | 0 <= i < |s.rs.retries| :: s.rs.retries[i].eventId == e && s.rs.retries[i].status.Pending?
  {
    hide DeadLettered, WriteLost, SumOf;
    NoSilentLoss(p, topic, states, steps, o);
    NothingCompletes(p, topic, states, steps);
    var s := states[|steps|];
    var e := EventId(s.log[o]);
    if i :| 0 <= i < |s.rs.retries| && s.rs.retries[i].eventId == e && !s.rs.retries[i].status.Failed? {
      assert s.rs.retries[i].status.Pending?;
    }
  }

  /** A commit that carries the committed offset past o. */
  predicate Passes(s: Pipe, a: Step, o: nat) {
    a == Commit(true) && s.inHand.Some? && s.inHand.value >= o
  }

  lemma {:induction false} CommittedExactly(p: Policy, topic: string, states: seq<Pipe>, steps: seq<Step>, o: nat)
    requires Run(p, topic, states, steps) && Fresh(states[0])
    ensures o < states[|steps|].committed <==> exists i | 0 <= i < |steps| :: Passes(states[i], steps[i], o)
  {
    hide PipeInv, Next, Possible;
    if steps == [] {
      FreshKept(p, states[0]);
    } else {
      var n := |steps| - 1;
      CommittedExactly(p, topic, states[..n + 1], steps[..n], o);
      PipeInvHolds(p, topic, states[..n + 1], steps[..n]);
      CommitStep(p, topic, states[n], steps[n], o);
      if i :| 0 <= i < n && Passes(states[..n + 1][i], steps[..n][i], o) {
        assert Passes(states[i], steps[i], o);
      }
    }
  }

  lemma CommitStep(p: Policy, topic: string, s: Pipe, a: Step, o: nat)
    requires PipeInv(p, s) && Possible(s, a)
    ensures o < Next(p, topic, s, a).committed <==> o < s.committed || Passes(s, a, o)
  {
    hide SumOf, Inv, GetMaxRetryAttempt, FailedAreDead, Bounded, Schedule, Safe;
  }

  /** What is in hand, and all that ever succeeded, can be processed; and a log entry never changes. */
  ghost predicate GoodHands(log0: seq<Message>, s: Pipe) {
    && log0 <= s.log
    && (s.inHand.Some? ==> s.inHand.value in s.succeeded)
    && forall o | o in s.succeeded :: 0 <= o < |s.log| && ProcessEvent(s.log[o].body).None?
  }

  lemma GoodStep(p: Policy, topic: string, s: Pipe, a: Step, log0: seq<Message>)
    requires Possible(s, a) && GoodHands(log0, s)
    ensures GoodHands(log0, Next(p, topic, s, a))
  {
    hide Schedule, GetMaxRetryAttempt, HandleNext;
  }

  lemma {:induction false} HandsStayGood(p: Policy, topic: string, states: seq<Pipe>, steps: seq<Step>, i: nat)
    requires Run(p, topic, states, steps) && Fresh(states[0]) && i <= |steps|
    ensures GoodHands(states[0].log, states[i]) && GoodHands(states[i].log, states[|steps|])
  {
    hide Next, Possible;
    if steps != [] {
      var n := |steps| - 1;
      HandsStayGood(p, topic, states[..n + 1], steps[..n], if i < |steps| then i else n);
      GoodStep(p, topic, states[n], steps[n], states[0].log);
      if i < |steps| {
        GoodStep(p, topic, states[n], steps[n], states[i].log);
      }
    }
  }

  /**
   * When an offset is passed: exactly if some message at or after it was handled without error and
   * its commit went through. For one that cannot be processed it takes a strictly later message:
   * scheduling or dead-lettering the event never commits it, whatever becomes of the event.
   */
  lemma FailedOffsetPassedExactlyByLaterCommit(p: Policy, topic: string, states: seq<Pipe>, steps: seq<Step>, o: nat)
    requires Run(p, topic, states, steps) && Fresh(states[0])
    requires o < |states[|steps|].log| && ProcessEvent(states[|steps|].log[o].body).Some?
    ensures o !in states[|steps|].succeeded
    ensures o < states[|steps|].committed <==> exists i | 0 <= i < |steps| :: Passes(states[i], steps[i], o + 1)
  {
    hide Next, Possible, Fresh;
    CommittedExactly(p, topic, states, steps, o);
    HandsStayGood(p, topic, states, steps, 0);
    if i :| 0 <= i < |steps| && Passes(states[i], steps[i], o) {
      HandsStayGood(p, topic, states, steps, i);
      assert Passes(states[i], steps[i], o + 1);
    }
  }

  lemma DeadLetteredExactly(s: Pipe, e: string)
    ensures DeadLettered(s.rs, e) <==> SumOf(s.rs.dlq, DeadFor(Some(e))) > 0
  {
    if d :| 0 <= d < |s.rs.dlq| && s.rs.dlq[d].eventId == e {
      SumAtLeast(s.rs.dlq, d, DeadFor(Some(e)));
    } else {
      SumZero(s.rs.dlq, DeadFor(Some(e)));
    }
  }

  /**
   * And when it is lost: exactly if it did not succeed, no record of its event is pending or
   * completed, and as many dead letters of it were lost as were ever due, by records that failed,
   * stored or not, and by schedules over the limit; none of either, if none was ever stored.
   */
  lemma LostExactly(p: Policy, topic: string, states: seq<Pipe>, steps: seq<Step>, o: nat)
    requires Run(p, topic, states, steps) && Fresh(states[0]) && o < states[|steps|].committed
    ensures var s := states[|steps|];
            && o < |s.log|
            && var e := EventId(s.log[o]);
            var due := SumOf(s.rs.retries, FailedFor(Some(e))) + SumOf(s.rs.hist.failuresLost, Is(Some(e)))
                       + SumOf(s.rs.hist.direct, Is(Some(e)));
            !Accounted(s, o) <==>
            && o !in s.succeeded
            && (forall i | 0 <= i < |s.rs.retries| && s.rs.retries[i].eventId == e :: s.rs.retries[i].status.Failed?)
            && SumOf(s.rs.hist.dlqLost, Is(Some(e))) == due
  {
    hide SumOf, Bounded, GetMaxRetryAttempt, HeaderValue, FailedFor, Is;
    PipeInvHolds(p, topic, states, steps);
    var s := states[|steps|];
    var e := EventId(s.log[o]);
    assert Retry.Balanced(s.rs, Some(e));
    DeadLetteredExactly(s, e);
  }

  // ---------------------------------------------------------------- deliveries

  /** The value is not a JSON object, or one that asks for a failure. */
  predicate Unprocessable(body: Body) {
    body.NotAnObject? || body.simulateFailure == Boolean(true)
  }

  /** The tables of a retry state after an event was scheduled, or could not be. */
  ghost predicate ScheduledAt(p: Policy, rs: RetryState, rs': RetryState, e: string, topic: string, attempt: nat,
                              env: Env)
  {
    && rs'.now == env.at && rs'.inflight == rs.inflight
    && (if attempt < p.maxAttempts && env.createOk
        then |rs'.retries| == |rs.retries| + 1 && rs'.retries[..|rs.retries|] == rs.retries
             && var r := rs'.retries[|rs.retries|];
             r == RetryRecord(e, topic, attempt + 1, p.maxAttempts, env.at + Delay(p, attempt), r.lastError,
                              Retry.Pending)
        else rs'.retries == rs.retries)
    && (if attempt >= p.maxAttempts && env.dlqOk
        then |rs'.dlq| == |rs.dlq| + 1 && rs'.dlq[..|rs.dlq|] == rs.dlq
             && var m := rs'.dlq[|rs.dlq|];
             m == DLQMessage(topic, e, "unknown", "{}", m.failureReason, attempt, env.at, None)
        else rs'.dlq == rs.dlq)
  }

  /**
   * A delivery moves the position past one message. If the message can be processed it is in hand
   * and audited, and no retry table changes; if not, nothing is in hand or audited, and its event is
   * scheduled: at 0 if its attempt cannot be read, else at the greatest its records show or showed.
   */
  lemma DeliveredExactly(p: Policy, topic: string, states: seq<Pipe>, steps: seq<Step>, i: nat)
    requires Run(p, topic, states, steps) && i < |steps| && steps[i].Deliver?
    ensures var s, t, env := states[i], states[i + 1], steps[i].env;
            && s.position < |s.log| && t.position == s.position + 1
            && t.log == s.log && t.committed == s.committed
            && var m := s.log[s.position];
            if Unprocessable(m.body)
            then
              && t.inHand == None && t.succeeded == s.succeeded && t.audit == s.audit && t.upsertsLost == s.upsertsLost
              && var e := HeaderValue(m.headers, "event_id");
              var reached := GetMaxRetryAttempt(s.rs.retries, e);
              var attempt := if env.read.ReadFails? then 0 else if env.read.ReadNow? then reached else env.read.attempt;
              && ScheduledAt(p, s.rs, t.rs, e, topic, attempt, env)
              && t.staleReads == if attempt < reached then s.staleReads + [e] else s.staleReads
            else
              && t.inHand == Some(s.position) && t.succeeded == s.succeeded + {s.position}
              && t.audit == (if env.upsertOk then Some(s.position) else s.audit)
              && t.upsertsLost == s.upsertsLost + (if env.upsertOk then 0 else 1)
              && t.staleReads == s.staleReads && t.rs == s.rs.(now := env.at)
  {
    hide Delay, GetMaxRetryAttempt, HeaderValue;
    assert Possible(states[i], steps[i]) && states[i + 1] == Next(p, topic, states[i], steps[i]);
  }

  /** What the other steps leave of the consumer: only a commit that goes through moves the committed offset. */
  lemma OtherStepsExactly(p: Policy, topic: string, states: seq<Pipe>, steps: seq<Step>, i: nat)
    requires Run(p, topic, states, steps) && i < |steps| && !steps[i].Deliver?
    ensures var s, t, a := states[i], states[i + 1], steps[i];
            && t.succeeded == s.succeeded && t.audit == s.audit && t.upsertsLost == s.upsertsLost
            && t.log == (if a.Append? then s.log + [a.m] else s.log)
            && t.position == (if a.Crash? then s.committed else s.position)
            && t.inHand == (if a.Crash? || a.Commit? then None else s.inHand)
            && (a.Commit? ==> s.inHand.Some?)
            && t.committed == if a == Commit(true) then s.inHand.value + 1 else s.committed
  {
    hide Schedule, GetMaxRetryAttempt, HandleNext, Begin;
    assert Possible(states[i], steps[i]) && states[i + 1] == Next(p, topic, states[i], steps[i]);
  }

  /**
   * After a restart the first message delivered is the one at the committed offset, whatever was
   * delivered before the crash.
   */
  lemma {:induction false} RestartsAtCommitted(p: Policy, topic: string, states: seq<Pipe>, steps: seq<Step>,
                                               i: nat, j: nat)
    requires Run(p, topic, states, steps) && i < j <= |steps| && steps[i].Crash?
    requires forall m | i < m < j :: !steps[m].Deliver?
    ensures states[j].position == states[j].committed == states[i].committed && states[j].inHand == None
  {
    OtherStepsExactly(p, topic, states, steps, j - 1);
    if i < j - 1 {
      RestartsAtCommitted(p, topic, states, steps, i, j - 1);
    }
  }

  /** The step delivers the message at offset o. */
  predicate Delivers(s: Pipe, a: Step, o: nat) {
    a.Deliver? && s.position == o
  }

  /** One step on: a delivery moves the position by one, a restart back to at least the committed offset. */
  lemma PositionStep(p: Policy, topic: string, states: seq<Pipe>, steps: seq<Step>, m: nat)
    requires Run(p, topic, states, steps) && Fresh(states[0]) && m < |steps|
    ensures |states| == |steps| + 1
    ensures if steps[m].Deliver? then states[m + 1].position == states[m].position + 1
            else states[m + 1].position <= states[m].position
    ensures steps[m].Crash? ==> states[m + 1].position == states[m].committed
  {
    hide Run, Fresh, PipeInv, Possible, Next;
    RunLength(p, topic, states, steps);
    if steps[m].Deliver? {
      DeliveredExactly(p, topic, states, steps, m);
    } else {
      OtherStepsExactly(p, topic, states, steps, m);
      CommittedIsBehind(p, topic, states, steps, m);
    }
  }

  /**
   * And from there on no message is skipped: before the position is past an offset that was not
   * committed at the crash, that offset has been delivered again, further crashes included.
   */
  lemma {:induction false} UncommittedIsRedelivered(p: Policy, topic: string, states: seq<Pipe>, steps: seq<Step>,
                                                    i: nat, j: nat, o: nat)
    requires Run(p, topic, states, steps) && Fresh(states[0]) && i < j <= |steps| && steps[i].Crash?
    requires states[i].committed <= o < states[j].position
    ensures exists m | i < m < j :: Delivers(states[m], steps[m], o)
  {
    hide Run, Fresh, Possible, Next;
    PositionStep(p, topic, states, steps, j - 1);
    if Delivers(states[j - 1], steps[j - 1], o) {
      assert i != j - 1;
    } else {
      assert i != j - 1 && o < states[j - 1].position;
      UncommittedIsRedelivered(p, topic, states, steps, i, j - 1, o);
    }
  }

  lemma CommittedIsBehind(p: Policy, topic: string, states: seq<Pipe>, steps: seq<Step>, i: nat)
    requires Run(p, topic, states, steps) && Fresh(states[0]) && i <= |steps|
    ensures states[i].committed <= states[i].position
  {
    PipeInvHolds(p, topic, states[..i + 1], steps[..i]);
  }

  /** A message that cannot be processed, and one that can. */
  function BadThenGood(): seq<Message> {
    [Message([("event_id", "a")], NotAnObject), Message([("event_id", "b")], Object(Absent))]
  }

  function AllWell(at: int): Env {
    Env(at, ReadNow, true, true, true, true)
  }

  /** The bad message delivered and the worker restarted: one more record, of the next attempt. */
  lemma Redelivered(p: Policy, topic: string, s: Pipe) returns (states: seq<Pipe>, steps: seq<Step>)
    requires s.log == BadThenGood() && s.position == s.committed == 0 && s.inHand == None
    requires GetMaxRetryAttempt(s.rs.retries, "a") < p.maxAttempts
    ensures Run(p, topic, states, steps) && states[0] == s
    ensures var t := states[|steps|];
            && t == s.(rs := t.rs) && t.rs.now == s.rs.now
            && GetMaxRetryAttempt(t.rs.retries, "a") == GetMaxRetryAttempt(s.rs.retries, "a") + 1
  {
    hide Delay;
    var env := AllWell(s.rs.now);
    var t := DeliverNext(p, topic, s, env);
    assert t.rs.retries[..|s.rs.retries|] == s.rs.retries;
    states := [s, t, t.(position := t.committed, inHand := None, rs := t.rs.(inflight := []))];
    steps := [Deliver(env), Crash];
  }

  lemma {:induction false} RedeliveredTo(p: Policy, topic: string, n: nat) returns (states: seq<Pipe>, steps: seq<Step>)
    requires n <= Max(0, p.maxAttempts)
    ensures Run(p, topic, states, steps) && Fresh(states[0])
    ensures var t := states[|steps|];
            && t.log == BadThenGood() && t.position == t.committed == 0 && t.inHand == None && t.succeeded == {}
            && GetMaxRetryAttempt(t.rs.retries, "a") == n
  {
    hide Run;
    if n == 0 {
      var s := Pipe(BadThenGood(), 0, 0, None, None, {}, [], 0, RetryState(0, [], [], [], NO_HISTORY));
      states, steps := [s], [];
      NoSteps(p, topic, s);
    } else {
      var first, one := RedeliveredTo(p, topic, n - 1);
      RunLength(p, topic, first, one);
      var rest, more := Redelivered(p, topic, first[|one|]);
      RunLength(p, topic, rest, more);
      RunsCompose(p, topic, first, one, rest, more);
      states, steps := first + rest[1..], one + more;
    }
  }

  /**
   * Whatever the limit, there is a run in which a delivery is dead-lettered and its offset stays
   * uncommitted, and the next message's commit then passes it.
   */
  lemma DeadLetteredThenPassed(p: Policy, topic: string) returns (states: seq<Pipe>, steps: seq<Step>, k: nat)
    ensures Run(p, topic, states, steps) && Fresh(states[0]) && |steps| == k + 2
    ensures DeadLettered(states[k].rs, EventId(BadThenGood()[0])) && states[k].position == 1 && states[k].committed == 0
    ensures var s := states[k + 2]; s.log == BadThenGood() && s.committed == 2 && 0 !in s.succeeded
  {
    hide Run, GetMaxRetryAttempt, Delay;
    var first, one := RedeliveredTo(p, topic, Max(0, p.maxAttempts));
    RunLength(p, topic, first, one);
    var s := first[|one|];
    var env := AllWell(s.rs.now);
    var dead := DeliverNext(p, topic, s, env);
    var handled := DeliverNext(p, topic, dead, env);
    var rest, more := [s, dead, handled, CommitInHand(handled, true)], [Deliver(env), Deliver(env), Commit(true)];
    IsRun(p, topic, rest, more);
    RunsCompose(p, topic, first, one, rest, more);
    states, steps, k := first + rest[1..], one + more, |one| + 1;
    assert dead.rs.dlq[|s.rs.dlq|].eventId == EventId(BadThenGood()[0]);
    assert states[k] == dead && states[k + 2] == rest[3];
  }

  lemma IsRun(p: Policy, topic: string, states: seq<Pipe>, steps: seq<Step>)
    requires |states| == |steps| + 1
    requires forall i | 0 <= i < |steps| ::
               Possible(states[i], steps[i]) && states[i + 1] == Next(p, topic, states[i], steps[i])
    ensures Run(p, topic, states, steps)
  {
  }

  /** Two consumers that read the attempt before either has written make two records where one is allowed. */
  lemma RacingReadsExceedTheLimit(p: Policy, topic: string) returns (states: seq<Pipe>, steps: seq<Step>)
    requires p.maxAttempts == 1
    ensures Run(p, topic, states, steps) && Fresh(states[0])
    ensures SumOf(states[|steps|].rs.retries, RecordsFor("a")) == 2 && states[|steps|].staleReads == ["a"]
  {
    hide Delay;
    var s0 := Pipe(BadThenGood(), 0, 0, None, None, {}, [], 0, RetryState(0, [], [], [], NO_HISTORY));
    var s1 := DeliverNext(p, topic, s0, AllWell(0));
    var late := Elsewhere("a", "invalid JSON", AllWell(0).(read := ReadBefore(0)));
    assert s1.rs.retries[..0] == [];
    assert GetMaxRetryAttempt(s1.rs.retries, "a") == 1;
    var s2 := Next(p, topic, s1, late);
    states, steps := [s0, s1, s2], [Deliver(AllWell(0)), late];
    SumAppend(s1.rs.retries, s2.rs.retries[1], RecordsFor("a"));
    SumAppend([], s1.rs.retries[0], RecordsFor("a"));
    assert [] + [s1.rs.retries[0]] == s1.rs.retries;
  }

  /** The exception is needed: one lost insert, and the commit of the next message buries the event. */
  lemma LostWriteLosesTheEvent(p: Policy, topic: string)
    returns (states: seq<Pipe>, steps: seq<Step>)
    requires p.maxAttempts > 0
    ensures Run(p, topic, states, steps) && Fresh(states[0])
    ensures var s := states[|steps|]; 0 < s.committed <= |s.log| && !Accounted(s, 0)
  {
    var bad := Message([("event_id", "a")], NotAnObject);
    var good := Message([("event_id", "b")], Object(Absent));
    var s0 := Pipe([bad, good], 0, 0, None, None, {}, [], 0, RetryState(0, [], [], [], NO_HISTORY));
    var failing := Env(0, ReadNow, false, true, true, true);
    var s1 := DeliverNext(p, topic, s0, failing);
    assert GetMaxRetryAttempt(s0.rs.retries, "a") == 0;
    assert s1.rs.retries == [] && s1.rs.dlq == [];
    var s2 := DeliverNext(p, topic, s1, failing);
    var s3 := CommitInHand(s2, true);
    states, steps := [s0, s1, s2, s3], [Deliver(failing), Deliver(failing), Commit(true)];
  }

  /**
   * The committed offset never decreases, and while no audit write is lost it is never more than
   * one past the audited offset, although that one moves back on redelivery.
   */
  lemma OffsetAudit(p: Policy, topic: string, states: seq<Pipe>, steps: seq<Step>, i: nat)
    requires Run(p, topic, states, steps) && Fresh(states[0]) && i <= |steps|
    ensures var s := states[|steps|];
            && states[i].committed <= s.committed <= |s.log|
            && (s.upsertsLost == 0 && s.committed > 0 ==> s.audit.Some? && s.committed <= s.audit.value + 1)
  {
    hide SumOf, Inv, Bounded, GetMaxRetryAttempt;
    PipeInvHolds(p, topic, states, steps);
    CommittedNeverDecreases(p, topic, states, steps, i);
  }

  /**
   * However often an event is redelivered, here or to another consumer, at most maxAttempts retry
   * records are ever made for it, plus one each time it is scheduled at less than the attempt its
   * records had reached, because the read failed or another consumer's record came in between.
   */
  lemma RecordsPerEvent(p: Policy, topic: string, states: seq<Pipe>, steps: seq<Step>, e: string)
    requires Run(p, topic, states, steps) && Fresh(states[0])
    ensures var s := states[|steps|];
            SumOf(s.rs.retries, RecordsFor(e)) <= Max(0, p.maxAttempts) + SumOf(s.staleReads, Is(Some(e)))
  {
    PipeInvHolds(p, topic, states, steps);
    assert Bounded(p, states[|steps|], e);
  }

  lemma {:induction false} AttemptNeverDecreases(p: Policy, topic: string, states: seq<Pipe>, steps: seq<Step>,
                                                i: nat, e: string)
    requires Run(p, topic, states, steps) && Fresh(states[0]) && i <= |steps|
    ensures GetMaxRetryAttempt(states[i].rs.retries, e) <= GetMaxRetryAttempt(states[|steps|].rs.retries, e)
  {
    hide SumOf, Inv, Bounded, GetMaxRetryAttempt, FailedAreDead, Kept, Schedule, HandleNext;
    if i < |steps| {
      var n := |steps| - 1;
      AttemptNeverDecreases(p, topic, states[..n + 1], steps[..n], i, e);
      PipeInvHolds(p, topic, states[..n + 1], steps[..n]);
      NextRemembers(p, topic, states[n], steps[n]);
      RememberedStaysKept(states[n].rs, states[n + 1].rs, e);
    }
  }

  lemma NextRemembers(p: Policy, topic: string, s: Pipe, a: Step)
    requires PipeInv(p, s) && Possible(s, a)
    ensures Remembers(s.rs, Next(p, topic, s, a).rs)
  {
    hide SumOf, Inv, Bounded, GetMaxRetryAttempt, FailedAreDead, Kept, Schedule, HandleNext;
    match a
    case Append(_) =>
    case Deliver(env) =>
      var here := s.(position := s.position + 1);
      forall e ensures Bounded(p, here, e) { assert Bounded(p, s, e); SameTables(p, s, here, e); }
      var m := s.log[s.position];
      if ProcessEvent(m.body).Some? { RescheduleKeeps(p, topic, here, EventId(m), ProcessEvent(m.body).value, env); }
    case Commit(_) =>
    case Crash =>
    case Elsewhere(e, error, env) => ElsewhereKeeps(p, topic, s, e, error, env);
    case Poller(b) => PollerKeeps(p, s, b);
  }
}
