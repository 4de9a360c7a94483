/**
 * Publishing with idempotency keys: the Redis check that admits a request, and the events table
 * that keeps at most one row per key. REST and gRPC single publishes check, batches do not.
 */
module Admission {
  import opened Prelude
  import opened Redis
  import opened Events

  /** A request that passed the check, and whether its publish, which comes after, succeeds. */
  datatype Admitted = Admitted(key: string, at: int, published: bool)

  datatype Gate = Gate(now: int, keys: map<string, int>, admitted: seq<Admitted>, events: seq<Event>)

  /** The steps of any number of concurrent requests, and of the locks and queue depths in the same key space. */
  datatype Step =
    | Tick(d: nat)
    | Check(key: string, reachable: bool, published: bool)
    | Store(e: Event, ok: bool)
    | TakeLock(id: string)
    | DropLock(id: string)
    | SetQueueDepth(topic: string)

  predicate Admits(g: Gate, key: string, reachable: bool) {
    key == "" || (reachable && !Held(g.keys, IdempotencyKey(key), g.now))
  }

  function Next(g: Gate, a: Step): Gate {
    match a
    case Tick(d) => g.(now := g.now + d)
    case Check(key, reachable, published) =>
      if Admits(g, key, reachable) then
        g.(admitted := g.admitted + [Admitted(key, g.now, published)],
           keys := if key == "" then g.keys else SetNX(g.keys, IdempotencyKey(key), g.now, IDEMPOTENCY_TTL))
      else g
    case Store(e, ok) => if ok then g.(events := StoreEvent(g.events, e)) else g
    case TakeLock(id) => g.(keys := SetNX(g.keys, LockKey(id), g.now, LOCK_TTL))
    case DropLock(id) => g.(keys := g.keys - {LockKey(id)})
    case SetQueueDepth(topic) => g.(keys := g.keys[QueueDepthKey(topic) := g.now + QUEUE_DEPTH_TTL])
  }

  function Run(g: Gate, steps: seq<Step>): Gate {
    if steps == [] then g else Next(Run(g, steps[..|steps| - 1]), steps[|steps| - 1])
  }

  predicate Initial(g: Gate) {
    g.keys == map[] && g.admitted == [] && g.events == []
  }

  predicate OneRowPerKey(events: seq<Event>) {
    forall i, j | 0 <= i < j < |events| && events[i].key != "" :: events[i].key != events[j].key
  }

  /** The key of an admitted request stays taken for the TTL at least. */
  ghost predicate Remembered(g: Gate) {
    forall i | 0 <= i < |g.admitted| && g.admitted[i].key != "" ::
      IdempotencyKey(g.admitted[i].key) in g.keys
      && g.admitted[i].at + IDEMPOTENCY_TTL <= g.keys[IdempotencyKey(g.admitted[i].key)]
  }

  predicate TakenBy(g: Gate, key: string, i: nat)
    requires i < |g.admitted| && IdempotencyKey(key) in g.keys
  {
    g.admitted[i].key == key && g.keys[IdempotencyKey(key)] == g.admitted[i].at + IDEMPOTENCY_TTL
  }

  /** And a taken key was taken by an admitted request, for the TTL. */
  ghost predicate Explained(g: Gate) {
    forall key | key != "" && IdempotencyKey(key) in g.keys :: exists i | 0 <= i < |g.admitted| :: TakenBy(g, key, i)
  }

  ghost predicate Inv(g: Gate) {
    && (forall i | 0 <= i < |g.admitted| :: g.admitted[i].at <= g.now)
    && Remembered(g) && Explained(g) && Apart(g.admitted) && OneRowPerKey(g.events)
  }

  /** Admissions of the same key are a whole TTL apart. */
  predicate Apart(admitted: seq<Admitted>) {
    forall i, j | 0 <= i < j < |admitted| && admitted[i].key != "" && admitted[i].key == admitted[j].key ::
      admitted[j].at - admitted[i].at >= 24 * 60 * 60
  }

  lemma CheckRemembers(g: Gate, key: string, reachable: bool, published: bool)
    requires Inv(g) && Admits(g, key, reachable)
    ensures var g' := Next(g, Check(key, reachable, published)); Remembered(g') && Apart(g'.admitted)
  {
    hide IdempotencyKey, Explained;
    var g' := Next(g, Check(key, reachable, published));
    forall i | 0 <= i < |g.admitted|
      ensures IdempotencyKey(g.admitted[i].key) == IdempotencyKey(key) <==> g.admitted[i].key == key
    {
      KeysAreSeparate(g.admitted[i].key, key, "");
    }
  }

  lemma CheckExplains(g: Gate, key: string, reachable: bool, published: bool)
    requires Inv(g) && Admits(g, key, reachable)
    ensures Explained(Next(g, Check(key, reachable, published)))
  {
    hide IdempotencyKey, Remembered, Apart;
    var g', n := Next(g, Check(key, reachable, published)), |g.admitted|;
    forall k | k != "" && IdempotencyKey(k) in g'.keys ensures exists i | 0 <= i < |g'.admitted| :: TakenBy(g', k, i) {
      KeysAreSeparate(k, key, "");
      if k == key {
        assert TakenBy(g', k, n);
      } else {
        var i :| 0 <= i < n && TakenBy(g, k, i);
        assert TakenBy(g', k, i);
      }
    }
  }

  lemma CheckKeeps(g: Gate, key: string, reachable: bool, published: bool)
    requires Inv(g)
    ensures Inv(Next(g, Check(key, reachable, published)))
  {
    hide IdempotencyKey, Remembered, Apart, Explained;
    if Admits(g, key, reachable) {
      CheckRemembers(g, key, reachable, published);
      CheckExplains(g, key, reachable, published);
    }
  }

  lemma NextKeeps(g: Gate, a: Step)
    requires Inv(g)
    ensures Inv(Next(g, a))
    ensures g.events <= Next(g, a).events
  {
    hide IdempotencyKey, LockKey, QueueDepthKey;
    match a
    case Tick(_) => SameKeys(g, Next(g, a));
    case Check(key, reachable, published) => CheckKeeps(g, key, reachable, published);
    case Store(_, _) => SameKeys(g, Next(g, a));
    case TakeLock(id) => OtherKeysKeep(g, a, LockKey(id), id, "");
    case DropLock(id) => OtherKeysKeep(g, a, LockKey(id), id, "");
    case SetQueueDepth(topic) => OtherKeysKeep(g, a, QueueDepthKey(topic), "", topic);
  }

  lemma SameKeys(g: Gate, g': Gate)
    requires Explained(g) && g'.keys == g.keys && g'.admitted == g.admitted
    ensures Explained(g')
  {
    forall key | key != "" && IdempotencyKey(key) in g'.keys
      ensures exists i | 0 <= i < |g'.admitted| :: TakenBy(g', key, i)
    {
      var i :| 0 <= i < |g.admitted| && TakenBy(g, key, i);
      assert TakenBy(g', key, i);
    }
  }

  /** Traffic on other keys leaves the idempotency keys alone. */
  lemma OtherKeysKeep(g: Gate, a: Step, other: string, id: string, topic: string)
    requires Inv(g) && (a.TakeLock? || a.DropLock? || a.SetQueueDepth?)
    requires other == if a.SetQueueDepth? then QueueDepthKey(a.topic) else LockKey(a.id)
    requires if a.SetQueueDepth? then a.topic == topic else a.id == id
    ensures Inv(Next(g, a))
  {
    hide IdempotencyKey, LockKey, QueueDepthKey;
    var g' := Next(g, a);
    assert g'.admitted == g.admitted;
    forall key ensures other != IdempotencyKey(key) { KeysAreSeparate(id, key, topic); }
    assert forall key :: IdempotencyKey(key) in g'.keys <==> IdempotencyKey(key) in g.keys;
    assert forall key | IdempotencyKey(key) in g.keys :: g'.keys[IdempotencyKey(key)] == g.keys[IdempotencyKey(key)];
    forall key | key != "" && IdempotencyKey(key) in g'.keys
      ensures exists i | 0 <= i < |g'.admitted| :: TakenBy(g', key, i)
    {
      var i :| 0 <= i < |g.admitted| && TakenBy(g, key, i);
      assert TakenBy(g', key, i);
    }
  }

  /**
   * Over any interleaving of checks, stores and other key traffic: two admitted requests with the same
   * non-empty key are at least a TTL apart, and the events table has at most one row per
   * non-empty key, none of which is ever changed or removed again.
   */
  lemma {:induction false} AdmissionsApart(g: Gate, steps: seq<Step>)
    requires Initial(g)
    ensures Inv(Run(g, steps)) && Apart(Run(g, steps).admitted) && OneRowPerKey(Run(g, steps).events)
    ensures forall i | 0 <= i <= |steps| :: Run(g, steps[..i]).events <= Run(g, steps).events
  {
    assert steps[..|steps|] == steps;
    if steps != [] {
      var init := steps[..|steps| - 1];
      AdmissionsApart(g, init);
      NextKeeps(Run(g, init), steps[|steps| - 1]);
      forall i | 0 <= i <= |steps| ensures Run(g, steps[..i]).events <= Run(g, steps).events {
        if i < |steps| { assert init[..i] == steps[..i]; }
      }
    }
  }

  /** And a request is turned away only for one admitted less than a TTL ago. */
  lemma AdmittedExactlyWhenClear(g: Gate, steps: seq<Step>, key: string)
    requires Initial(g) && key != ""
    ensures var s := Run(g, steps);
            Admits(s, key, true) <==>
            forall i | 0 <= i < |s.admitted| && s.admitted[i].key == key :: s.now - s.admitted[i].at >= IDEMPOTENCY_TTL
  {
    AdmissionsApart(g, steps);
    var s := Run(g, steps);
    if IdempotencyKey(key) in s.keys {
      var i :| 0 <= i < |s.admitted| && TakenBy(s, key, i);
    }
  }

  /** The i-th admission is of the key and less than a TTL old. */
  predicate InWindow(g: Gate, key: string, i: nat) {
    i < |g.admitted| && g.admitted[i].key == key && g.now - g.admitted[i].at < 24 * 60 * 60
  }

  predicate PublishedInWindow(g: Gate, key: string) {
    exists i | 0 <= i < |g.admitted| :: InWindow(g, key, i) && g.admitted[i].published
  }

  /**
   * A request is turned away on account of one earlier request, the only one of its key admitted
   * in the last TTL; so what it repeats was published exactly if that one's publish succeeded.
   */
  lemma TurnedAwayExactly(g: Gate, steps: seq<Step>, key: string)
    requires Initial(g) && key != ""
    ensures var s := Run(g, steps);
            && (!Admits(s, key, true) <==> exists i | 0 <= i < |s.admitted| :: InWindow(s, key, i))
            && (forall i: nat, j: nat | InWindow(s, key, i) && InWindow(s, key, j) :: i == j)
            && (forall i: nat | InWindow(s, key, i) :: PublishedInWindow(s, key) <==> s.admitted[i].published)
  {
    AdmittedExactlyWhenClear(g, steps, key);
    AdmissionsApart(g, steps);
    var s := Run(g, steps);
    forall i: nat, j: nat | InWindow(s, key, i) && InWindow(s, key, j) ensures i == j {
      assert s.admitted[i].at <= s.now && s.admitted[j].at <= s.now;
    }
    if i :| 0 <= i < |s.admitted| && s.admitted[i].key == key && s.now - s.admitted[i].at < IDEMPOTENCY_TTL {
      assert InWindow(s, key, i);
    }
  }

  function Elapsed(steps: seq<Step>): nat {
    if steps == [] then 0 else
      var a := steps[|steps| - 1];
      Elapsed(steps[..|steps| - 1]) + if a.Tick? then a.d else 0
  }

  /** Only ticks move the clock. */
  lemma {:induction false} ClockOfRun(g: Gate, steps: seq<Step>)
    ensures Run(g, steps).now == g.now + Elapsed(steps)
  {
    if steps != [] { ClockOfRun(g, steps[..|steps| - 1]); }
  }

  /**
   * A failed publish keeps its key: whatever led up to it, the same request tried again within the
   * TTL is turned away as a duplicate, although nothing of it was published or stored.
   */
  lemma FailedPublishTurnsRetryAway(g: Gate, steps: seq<Step>, key: string, d: nat)
    requires Initial(g) && key != "" && Admits(Run(g, steps), key, true) && d < IDEMPOTENCY_TTL
    ensures var s, t := Run(g, steps), Run(g, steps + [Check(key, true, false), Tick(d)]);
            !Admits(t, key, true) && !PublishedInWindow(t, key) && t.events == s.events
  {
    var failed, later := steps + [Check(key, true, false)], steps + [Check(key, true, false), Tick(d)];
    assert failed[..|steps|] == steps && later[..|failed|] == failed;
    var s, t := Run(g, steps), Run(g, later);
    assert Run(g, failed) == Next(s, Check(key, true, false));
    assert InWindow(t, key, |s.admitted|);
    TurnedAwayExactly(g, later, key);
  }

  /**
   * A stored insert adds exactly its row, after all others, if no row has its id or its non-empty
   * key; otherwise, and if it fails, the table stays as it was.
   */
  lemma StoresExactly(g: Gate, steps: seq<Step>, e: Event, ok: bool)
    ensures var s, t := Run(g, steps), Run(g, steps + [Store(e, ok)]);
            && t.events == (if ok && IsNew(s.events, e) then s.events + [e] else s.events)
            && t == s.(events := t.events)
  {
    assert (steps + [Store(e, ok)])[..|steps|] == steps;
  }

  /** The events are all new, to the table and to each other. */
  predicate AllNew(events: seq<Event>, es: seq<Event>) {
    && (forall k | 0 <= k < |es| :: IsNew(events, es[k]))
    && (forall j, k | 0 <= j < k < |es| :: es[j].id != es[k].id && (es[k].key != "" ==> es[j].key != es[k].key))
  }

  /** New events are added one by one, in order, each whose insert goes through. */
  lemma {:induction false} StoreAllExactly(events: seq<Event>, es: seq<Event>, ok: nat -> bool)
    requires AllNew(events, es)
    ensures var after := StoreAll(events, es, ok);
            && |after| == |events| + CountOk(ok, |es|) && after[..|events|] == events
            && (forall k: nat | k < |es| && ok(k) ::
                  |events| + CountOk(ok, k) < |after| && after[|events| + CountOk(ok, k)] == es[k])
            && (forall i | |events| <= i < |after| :: exists k | 0 <= k < |es| :: after[i] == es[k])
  {
    if es != [] {
      var n := |es| - 1;
      StoreAllExactly(events, es[..n], ok);
      var before := StoreAll(events, es[..n], ok);
      assert IsNew(events, es[n]);
      forall i | 0 <= i < |before|
        ensures before[i].id != es[n].id && (es[n].key != "" ==> before[i].key != es[n].key)
      {
        if i < |events| {
          assert before[..|events|][i] == events[i];
        } else {
          var k :| 0 <= k < n && before[i] == es[..n][k];
          assert es[..n][k] == es[k];
        }
      }
      assert StoreAll(events, es, ok) == if ok(n) then before + [es[n]] else before;
      forall i | |events| <= i < |StoreAll(events, es, ok)|
        ensures exists k | 0 <= k < |es| :: StoreAll(events, es, ok)[i] == es[k]
      {
        if i < |before| {
          var k :| 0 <= k < n && before[i] == es[..n][k];
          assert es[..n][k] == es[k];
        }
      }
    }
  }

  lemma {:induction false} AllStored(ok: nat -> bool, n: nat)
    requires forall k: nat | k < n :: ok(k)
    ensures CountOk(ok, n) == n
  {
    if n > 0 { AllStored(ok, n - 1); }
  }

  function StoreAll(events: seq<Event>, es: seq<Event>, ok: nat -> bool): seq<Event> {
    if es == [] then events else
      var before := StoreAll(events, es[..|es| - 1], ok);
      if ok(|es| - 1) then StoreEvent(before, es[|es| - 1]) else before
  }

  lemma AllAdded(events: seq<Event>, es: seq<Event>, ok: nat -> bool)
    requires AllNew(events, es) && forall k: nat | k < |es| :: ok(k)
    ensures StoreAll(events, es, ok) == events + es
  {
    hide StoreAll, AllNew, CountOk;
    StoreAllExactly(events, es, ok);
    var after := StoreAll(events, es, ok);
    AllStored(ok, |es|);
    forall k: nat | k < |es| ensures after[|events| + k] == es[k] { AllStored(ok, k); }
    assert after == after[..|events|] + after[|events|..];
  }

  datatype Outcome = Accepted | Duplicate | CheckFailed | PublishFailed

  class Gateway {
    const cache: RedisCache
    var events: seq<Event>
    ghost var admitted: seq<Admitted>

    constructor (cache: RedisCache)
      requires cache.keys == map[]
      ensures this.cache == cache && Initial(View())
    {
      this.cache := cache;
      events, admitted := [], [];
    }

    ghost function View(): Gate
      reads this, cache
    {
      Gate(cache.now, cache.keys, admitted, events)
    }

    /** A single publish: check the key, publish, store. `produced` is what the broker returned. */
    method PublishEvent(key: string, produced: Option<Event>, reachable: bool, storeOk: bool) returns (outcome: Outcome)
      modifies this, cache`keys
      ensures outcome.CheckFailed? <==> key != "" && !reachable
      ensures outcome.Duplicate? <==> key != "" && reachable && !Admits(old(View()), key, reachable)
      ensures outcome.Accepted? <==> Admits(old(View()), key, reachable) && produced.Some?
      ensures var checked := Next(old(View()), Check(key, reachable, produced.Some?));
              View() == if outcome.Accepted? then Next(checked, Store(produced.value, storeOk)) else checked
      ensures events == if outcome.Accepted? && storeOk && IsNew(old(events), produced.value)
                        then old(events) + [produced.value]
                        else old(events)
    {
      if key != "" {
        var dup, err := cache.CheckIdempotency(key, IDEMPOTENCY_TTL, reachable);
        if err { return CheckFailed; }
        if dup { return Duplicate; }
      }
      admitted := admitted + [Admitted(key, cache.now, produced.Some?)];
      if produced.None? { return PublishFailed; }
      if storeOk {
        events := StoreEvent(events, produced.value);
      }
      return Accepted;
    }

    /** A batch: nothing is checked, and nothing is stored unless every event was published. */
    method PublishBatch(produced: seq<Event>, failed: bool, storeOk: nat -> bool) returns (outcome: Outcome)
      modifies this`events
      ensures outcome == if failed then PublishFailed else Accepted
      ensures events == if failed then old(events) else StoreAll(old(events), produced, storeOk)
      ensures !failed && AllNew(old(events), produced) && (forall k: nat | k < |produced| :: storeOk(k)) ==>
                events == old(events) + produced
    {
      if failed { return PublishFailed; }
      for k := 0 to |produced|
        invariant events == StoreAll(old(events), produced[..k], storeOk)
      {
        assert produced[..k + 1][..k] == produced[..k];
        if storeOk(k) {
          events := StoreEvent(events, produced[k]);
        }
      }
      assert produced[..|produced|] == produced;
      if AllNew(old(events), produced) && forall k: nat | k < |produced| :: storeOk(k) {
        AllAdded(old(events), produced, storeOk);
      }
      return Accepted;
    }
  }
}
