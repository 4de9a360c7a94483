/** The shared Redis key space: set-if-absent with an expiry, and unconditional delete. */
module Redis {

  /** How long a workflow lock is leased for, in seconds. */
  const LOCK_TTL: nat := 300

  /** How long an idempotency key is remembered, in seconds. */
  const IDEMPOTENCY_TTL: nat := 86400

  /** How long a queue depth is kept, in seconds. */
  const QUEUE_DEPTH_TTL: nat := 30

  function LockKey(workflowId: string): string { "workflow_lock:" + workflowId }

  function IdempotencyKey(key: string): string { "idempotency:" + key }

  function QueueDepthKey(topic: string): string { "queue_depth:" + topic }

  /** The three uses of the key space never collide, and within the first two no two ids do. */
  lemma KeysAreSeparate(a: string, b: string, topic: string)
    ensures LockKey(a) != IdempotencyKey(b)
    ensures QueueDepthKey(topic) != LockKey(a) && QueueDepthKey(topic) != IdempotencyKey(b)
    ensures LockKey(a) == LockKey(b) <==> a == b
    ensures IdempotencyKey(a) == IdempotencyKey(b) <==> a == b
  {
    assert LockKey(a)[0] == 'w' && IdempotencyKey(b)[0] == 'i' && QueueDepthKey(topic)[0] == 'q';
    assert LockKey(a)[|"workflow_lock:"|..] == a && LockKey(b)[|"workflow_lock:"|..] == b;
    assert IdempotencyKey(a)[|"idempotency:"|..] == a && IdempotencyKey(b)[|"idempotency:"|..] == b;
  }

  /** A key is held while the clock has not reached its expiry. */
  predicate Held(keys: map<string, int>, key: string, now: int) {
    key in keys && now < keys[key]
  }

  /** SET key NX EX ttl. */
  function SetNX(keys: map<string, int>, key: string, now: int, ttl: nat): map<string, int> {
    if Held(keys, key, now) then keys else keys[key := now + ttl]
  }

  /** The client. `reachable` says whether the server answers; a call that gets no answer changes nothing. */
  class RedisCache {
    var now: int
    var keys: map<string, int>

    constructor ()
      ensures now == 0 && keys == map[]
    {
      now, keys := 0, map[];
    }

    /** Whether `key` was already seen; the empty key never is. */
    method CheckIdempotency(key: string, ttl: nat, reachable: bool) returns (duplicate: bool, err: bool)
      modifies this`keys
      ensures err <==> key != "" && !reachable
      ensures duplicate <==> key != "" && reachable && Held(old(keys), IdempotencyKey(key), now)
      ensures keys == if key == "" || err then old(keys) else SetNX(old(keys), IdempotencyKey(key), now, ttl)
    {
      if key == "" { return false, false; }
      if !reachable { return false, true; }
      duplicate, err := Held(keys, IdempotencyKey(key), now), false;
      if !duplicate {
        keys := keys[IdempotencyKey(key) := now + ttl];
      }
    }

    method LockWorkflow(workflowId: string, ttl: nat, reachable: bool) returns (locked: bool, err: bool)
      modifies this`keys
      ensures err <==> !reachable
      ensures locked <==> reachable && !Held(old(keys), LockKey(workflowId), now)
      ensures keys == if err then old(keys) else SetNX(old(keys), LockKey(workflowId), now, ttl)
    {
      if !reachable { return false, true; }
      locked, err := !Held(keys, LockKey(workflowId), now), false;
      if locked {
        keys := keys[LockKey(workflowId) := now + ttl];
      }
    }

    /** Deletes the key whoever set it. */
    method UnlockWorkflow(workflowId: string, reachable: bool)
      modifies this`keys
      ensures keys == if reachable then old(keys) - {LockKey(workflowId)} else old(keys)
    {
      if reachable {
        keys := keys - {LockKey(workflowId)};
      }
    }

    /** Sets a gauge with an expiry, whatever was there. */
    method SetQueueDepth(topic: string, reachable: bool) returns (err: bool)
      modifies this`keys
      ensures err <==> !reachable
      ensures keys == if err then old(keys) else old(keys)[QueueDepthKey(topic) := now + 30]
    {
      if !reachable { return true; }
      keys := keys[QueueDepthKey(topic) := now + QUEUE_DEPTH_TTL];
      return false;
    }
  }
}
