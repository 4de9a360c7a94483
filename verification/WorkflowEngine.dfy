/**
 * The engine as an object: tables, lock, world and loops, proved to do what `Saga.Finish` says
 * and to leave the row that `WorkflowRows` says, whatever other workers did to it before the lock.
 */
module WorkflowEngine {
  import opened Prelude
  import opened Redis
  import opened Saga
  import opened WorkflowRows
  import Serial

  datatype Definition<!W> = Definition(name: string, steps: seq<StepDefinition<W>>)

  /** Which calls to the stores succeed. Status updates are numbered in the order the run issues them. */
  datatype Faults = Faults(readOk: bool, lockOk: bool, unlockOk: bool, insertOk: nat -> bool, statusOk: nat -> bool)

  datatype RunError =
    NoError | NotFound | UnknownDefinition | AlreadyRunning | StepNotStored | FailedAtStep(name: string)

  /** What runs in other processes share with this one. */
  datatype Shared<!W> = Shared(
    workflows: map<string, Workflow>, steps: seq<WorkflowStep>, world: W, keys: map<string, int>, now: int)

  /** No row is deleted, and nothing rewrites the id, name or input of one. */
  ghost predicate SameWorkflows(before: map<string, Workflow>, after: map<string, Workflow>) {
    forall id | id in before ::
      id in after && SameWork(after[id], before[id])
  }

  /** What a run that read `q.seen` and then got the lock makes of what it found. */
  ghost predicate RanFrom<W>(q: Serial.Reader<W>, found: Shared<W>, unlockOk: bool, after: Shared<W>) {
    var id := q.c.id;
    && id in found.workflows && id in after.workflows
    && Serial.RunsTo(q, Serial.Place(found.world, found.workflows[id]), found.now,
                     Serial.Place(after.world, after.workflows[id]))
    && after.workflows == found.workflows[id := after.workflows[id]]
    && SameWorkflows(found.workflows, after.workflows)
    && after.now == found.now
    && after.keys == (var held := SetNX(found.keys, LockKey(id), found.now, LOCK_TTL);
                      if unlockOk then held - {LockKey(id)} else held)
  }

  /**
   * Such a run is an execution of the many-run machine: one that begins with the row read, takes
   * the free lock, and ends with this run past, so that all that is proved of executions covers it.
   */
  lemma RunIsExecution<W>(q: Serial.Reader<W>, found: Shared<W>, unlockOk: bool, after: Shared<W>)
    returns (states: seq<Serial.State<W>>, actions: seq<Serial.Action<W>>)
    requires RanFrom(q, found, unlockOk, after) && !Held(found.keys, LockKey(q.c.id), found.now)
    ensures Serial.Execution(states, actions)
    ensures var id, s, t := q.c.id, states[0], states[|actions|];
            && s.now == found.now && s.keys == found.keys && s.readers == map[0 := q] && s.active == map[]
            && s.places == map[id := Serial.Place(found.world, found.workflows[id])]
            && t.now == after.now && t.keys == after.keys && t.readers == map[] && t.active == map[]
            && t.places == map[id := Serial.Place(after.world, after.workflows[id])]
  {
    var id := q.c.id;
    var s := Serial.State(found.now, found.keys, map[id := Serial.Place(found.world, found.workflows[id])],
                          map[0 := q], map[], [], []);
    states, actions := Serial.UndisturbedRunIsExecution(s, 0, unlockOk);
    hide Finish, Persisted, Updates, Serial.Execution;
    var t := states[|actions|];
    assert t.places[id] == Serial.Place(after.world, after.workflows[id]);
    assert t.places.Keys == {id} && s.readers - {0} == map[];
  }

  // ---------------------------------------------------------------- the engine

  class Engine<W(!new)> {
    const cache: RedisCache
    var registry: map<string, Definition<W>>
    var failStep: string
    var workflows: map<string, Workflow>
    var steps: seq<WorkflowStep>
    var world: W
    ghost var calls: seq<Call>
    ghost var log: seq<Status>

    constructor (cache: RedisCache, registry: map<string, Definition<W>>, world: W)
      ensures this.cache == cache && this.registry == registry && this.world == world
      ensures failStep == "" && workflows == map[] && steps == [] && calls == [] && log == []
    {
      this.cache, this.registry, this.world := cache, registry, world;
      failStep, workflows, steps, calls, log := "", map[], [], [], [];
    }

    /** Stores a pending row under a fresh id, for a registered name only. */
    method Create(name: string, input: Payload, id: string, storeOk: bool) returns (created: Option<Workflow>)
      requires id !in workflows
      modifies this`workflows
      ensures created.Some? <==> name in registry && storeOk
      ensures created.Some? ==> created.value == Workflow(id, name, Pending, input, "", None)
      ensures workflows == if created.Some? then old(workflows)[id := created.value] else old(workflows)
    {
      if name !in registry { return None; }
      if !storeOk { return None; }
      var w := Workflow(id, name, Pending, input, "", None);
      workflows := workflows[id := w];
      return Some(w);
    }

    /** The error is ignored by callers. */
    method UpdateWorkflow(w: Workflow, ok: bool)
      requires w.id in workflows
      modifies this`workflows, this`log
      ensures workflows == if ok then old(workflows)[w.id := Write(old(workflows)[w.id], w)] else old(workflows)
      ensures log == old(log) + if ok then [w.status] else []
    {
      if ok {
        workflows := workflows[w.id := Write(workflows[w.id], w)];
        log := log + [w.status];
      }
    }

    ghost function ConfigOf(w: Workflow, insertOk: nat -> bool): Config<W>
      reads this
      requires w.name in registry
    {
      Config(w.id, registry[w.name].steps, w.input, failStep, insertOk)
    }

    /** The row found and the status log show the surviving ones of the updates announcing n steps. */
    ghost predicate Shows(c: Config<W>, seen: Workflow, n: nat, ok: nat -> bool,
                          workflows0: map<string, Workflow>, log0: seq<Status>)
      requires n <= |c.steps|
      reads this
    {
      && seen.id in workflows0
      && workflows == workflows0[seen.id := Persisted(workflows0[seen.id], Announcements(c, seen, n), ok)]
      && log == log0 + StatusLog(Announcements(c, seen, n), ok)
    }

    /** Writes that step n - 1 begins; n == 0 writes that the run begins. */
    method ShowStep(w: Workflow, ghost c: Config<W>, ghost seen: Workflow, n: nat, ok: nat -> bool,
                    ghost workflows0: map<string, Workflow>, ghost log0: seq<Status>)
      requires n <= |c.steps| && w == Announced(c, seen, n)
      requires if n == 0 then seen.id in workflows && workflows == workflows0 && log == log0
               else Shows(c, seen, n - 1, ok, workflows0, log0)
      modifies this`workflows, this`log
      ensures Shows(c, seen, n, ok, workflows0, log0)
    {
      hide Persisted, StatusLog;
      Announce(c, seen, workflows0[seen.id], n, ok);
      if n > 0 { Announce(c, seen, workflows0[seen.id], n - 1, ok); }
      UpdateWorkflow(w, ok(n));
    }

    /** The world, and what was added to the tables and the call trace, are those of `r`. */
    ghost predicate Tracks(r: RunState<W>, calls0: seq<Call>, steps0: seq<WorkflowStep>)
      reads this
    {
      world == r.world && calls == calls0 + r.calls && steps == steps0 + r.rows
    }

    /** Runs one step and describes it as a row; nothing is stored yet. */
    method ExecuteStep(workflowId: string, pos: nat, def: StepDefinition<W>, input: Payload, workflowInput: Payload)
      returns (step: WorkflowStep)
      modifies this`world, this`calls
      ensures ShouldFailStep(failStep, workflowInput, def.name) ==>
                world == old(world) && calls == old(calls) && step.output.None?
      ensures !ShouldFailStep(failStep, workflowInput, def.name) ==>
                (world, step.output) == def.execute(old(world), input) && calls == old(calls) + [Execute(pos, input)]
      ensures step == WorkflowStep(workflowId, def.name, if step.output.None? then StepFailed else StepCompleted,
                                   input, step.output)
    {
      if ShouldFailStep(failStep, workflowInput, def.name) {
        return WorkflowStep(workflowId, def.name, StepFailed, input, None);
      }
      var (after, output) := def.execute(world, input);
      world := after;
      calls := calls + [Execute(pos, input)];
      step := WorkflowStep(workflowId, def.name, if output.None? then StepFailed else StepCompleted, input, output);
    }

    /** The position kept for each name when the definitions are entered in order. */
    method StepMap(defs: seq<StepDefinition<W>>) returns (stepMap: map<string, nat>)
      ensures forall name :: name in stepMap <==> Lookup(defs, name).Some?
      ensures forall name | name in stepMap :: Lookup(defs, name) == Some(stepMap[name])
    {
      stepMap := map[];
      for k := 0 to |defs|
        invariant forall name :: name in stepMap <==> Lookup(defs[..k], name).Some?
        invariant forall name | name in stepMap :: Lookup(defs[..k], name) == Some(stepMap[name])
      {
        assert defs[..k + 1][..k] == defs[..k];
        stepMap := stepMap[defs[k].name := k];
      }
      assert defs[..|defs|] == defs;
    }

    /** Compensates one completed step, if the map leads to a definition that can. */
    method CompensateOne(defs: seq<StepDefinition<W>>, stepMap: map<string, nat>, step: WorkflowStep,
                         ghost c: Config<W>, ghost r: RunState<W>, ghost before: seq<Call>)
      requires calls == before + r.calls
      requires c.steps == defs && Fits(c, r) && r.phase.Rollback? && r.phase.j > 0 && r.world == world
      requires step.name == defs[r.phase.j - 1].name && step.input == r.phase.done[r.phase.j - 1]
      requires forall name :: name in stepMap <==> Lookup(defs, name).Some?
      requires forall name | name in stepMap :: Lookup(defs, name) == Some(stepMap[name])
      modifies this`world, this`calls
      ensures var n := Next(c, r);
              && n.phase == Rollback(r.phase.j - 1, r.phase.done, r.phase.at) && n.rows == r.rows
              && n.world == world && calls == before + n.calls
    {
      assert Lookup(defs, step.name) == Some(stepMap[step.name]);
      if step.name !in stepMap || defs[stepMap[step.name]].compensation.None? {
        return;
      }
      var p := stepMap[step.name];
      world := defs[p].compensation.value(world, step.input).0;
      calls := calls + [Call.Compensate(p, step.input)];
    }

    /** The reverse loop over the completed steps; a compensation that fails is only logged. */
    method CompensateAll(defs: seq<StepDefinition<W>>, completed: seq<WorkflowStep>, ghost c: Config<W>)
      requires c.steps == defs && |completed| < |defs|
      requires forall j | 0 <= j < |completed| :: completed[j].name == defs[j].name
      modifies this`world, this`calls
      ensures var k := |completed|;
              var f := Finish(c, RunState(Rollback(k, Inputs(completed), k), old(world), [], []));
              world == f.world && calls == old(calls) + f.calls
    {
      hide Finish, Next;
      var stepMap := StepMap(defs);
      ghost var k, inputs := |completed|, Inputs(completed);
      ghost var r := RunState(Rollback(k, inputs, k), world, [], []);
      ghost var f := Finish(c, r);
      var i := |completed|;
      while i > 0
        invariant 0 <= i <= k
        invariant r.phase == Rollback(i, inputs, k)
        invariant world == r.world && calls == old(calls) + r.calls
        invariant Finish(c, r) == f
      {
        i := i - 1;
        Resume(c, r);
        CompensateOne(defs, stepMap, completed[i], c, r, old(calls));
        r := Next(c, r);
      }
      RollbackEnds(c, r);
    }

    method Compensate(w: Workflow, completed: seq<WorkflowStep>, ghost c: Config<W>, n: nat, statusOk: nat -> bool)
      returns (err: RunError)
      requires w.name in registry && registry[w.name].steps == c.steps
      requires |completed| < |c.steps|
      requires forall j | 0 <= j < |completed| :: completed[j].name == c.steps[j].name
      requires w.id in workflows
      modifies this`world, this`calls, this`workflows, this`log
      ensures err == FailedAtStep(w.currentStep)
      ensures var k := |completed|;
              var f := Finish(c, RunState(Rollback(k, Inputs(completed), k), old(world), [], []));
              world == f.world && calls == old(calls) + f.calls
      ensures var cur := old(workflows)[w.id];
              var row := if statusOk(n + 1) then Write(cur, w.(status := Failed))
                         else if statusOk(n) then Write(cur, w.(status := Compensating))
                         else cur;
              && workflows == old(workflows)[w.id := row]
              && log == old(log) + (if statusOk(n) then [Compensating] else [])
                        + (if statusOk(n + 1) then [Failed] else [])
    {
      UpdateWorkflow(w.(status := Compensating), statusOk(n));
      CompensateAll(registry[w.name].steps, completed, c);
      UpdateWorkflow(w.(status := Failed), statusOk(n + 1));
      return FailedAtStep(w.currentStep);
    }

    /** Other workers' doings between this run's read of the row and its lock: `found` is what they leave. */
    method OthersAct(found: Shared<W>)
      modifies this`workflows, this`steps, this`world, cache
      ensures Shared(workflows, steps, world, cache.keys, cache.now) == found
    {
      workflows, steps, world := found.workflows, found.steps, found.world;
      cache.keys, cache.now := found.keys, found.now;
    }

    /**
     * Reads the row, takes the lock, drives the run to its end, releases the lock. The row is read
     * before the lock, so what the run finds under the lock may be another one, of the same id,
     * name and input; it goes on working with the one it read.
     */
    method Run(workflowId: string, faults: Faults, found: Shared<W>) returns (err: RunError)
      requires forall id | id in workflows :: workflows[id].id == id
      requires SameWorkflows(workflows, found.workflows)
      modifies this`workflows, this`steps, this`world, this`calls, this`log, cache
      ensures err.NotFound? <==> !faults.readOk || workflowId !in old(workflows)
      ensures err.UnknownDefinition? <==>
                faults.readOk && workflowId in old(workflows) && old(workflows)[workflowId].name !in registry
      ensures err.NotFound? || err.UnknownDefinition? ==> unchanged(this) && unchanged(cache)
      ensures err.AlreadyRunning? <==>
                && faults.readOk && workflowId in old(workflows) && old(workflows)[workflowId].name in registry
                && (!faults.lockOk || Held(found.keys, LockKey(workflowId), found.now))
      ensures err.AlreadyRunning? ==>
                && Shared(workflows, steps, world, cache.keys, cache.now) == found
                && calls == old(calls) && log == old(log)
      ensures !(err.NotFound? || err.UnknownDefinition? || err.AlreadyRunning?) ==>
                var seen := old(workflows)[workflowId];
                var c := ConfigOf(seen, faults.insertOk);
                var f := Finish(c, Start(c, found.world));
                && (f.phase.verdict.Completed? || f.phase.verdict.at < |c.steps|)
                && RanFrom(Serial.Reader(c, seen, faults.statusOk), found, faults.unlockOk,
                           Shared(workflows, steps, world, cache.keys, cache.now))
                && steps == found.steps + f.rows && calls == old(calls) + f.calls
                && RowFollows(c, seen, found.workflows[workflowId], f.phase.verdict, found.now, faults.statusOk,
                              workflows[workflowId])
                && old(log) <= log && LogFollows(c, f.phase.verdict, faults.statusOk, log[|old(log)|..])
                && log == old(log) + StatusLog(Updates(c, seen, f.phase.verdict, found.now), faults.statusOk)
                && err == match f.phase.verdict
                          case Completed => NoError
                          case RolledBack(k) => FailedAtStep(c.steps[k].name)
                          case InsertFailed(_) => StepNotStored
    {
      hide Finish, Persisted, StatusLog, Updates, RowFollows, LogFollows;
      if !faults.readOk || workflowId !in workflows { return NotFound; }
      var seen := workflows[workflowId];
      if seen.name !in registry { return UnknownDefinition; }
      var def := registry[seen.name];
      OthersAct(found);
      var locked, lockErr := cache.LockWorkflow(workflowId, LOCK_TTL, faults.lockOk);
      if lockErr || !locked { return AlreadyRunning; }
      err := RunLocked(seen, def, faults);
      RowKept(found.workflows[workflowId], faults.statusOk);
      ghost var c := ConfigOf(seen, faults.insertOk);
      ghost var v := Finish(c, Start(c, found.world)).phase.verdict;
      RowLeft(c, seen, found.workflows[workflowId], v, found.now, faults.statusOk);
      LogLeft(c, seen, v, found.now, faults.statusOk);
      cache.UnlockWorkflow(workflowId, faults.unlockOk);
    }

    lemma RowKept(cur: Workflow, ok: nat -> bool)
      ensures forall updates :: SameWork(Persisted(cur, updates, ok), cur)
    {
      forall updates ensures SameWork(Persisted(cur, updates, ok), cur) {
        PersistedKeeps(cur, updates, ok);
      }
    }

    /** Executes step i of a run that has come to `r`, and stores its row: one `Next`. */
    method RunStep(i: nat, stepDef: StepDefinition<W>, stepInput: Payload, w: Workflow, stored: bool,
                   ghost c: Config<W>, ghost r: RunState<W>, ghost calls0: seq<Call>, ghost steps0: seq<WorkflowStep>)
      returns (step: WorkflowStep)
      requires i < |c.steps| && c.steps[i] == stepDef && c.insertOk(i) == stored
      requires c.id == w.id && c.input == w.input && c.failStep == failStep
      requires Fits(c, r) && r.phase.Forward? && r.phase.i == i && r.phase.input == stepInput
      requires Tracks(r, calls0, steps0)
      modifies this`world, this`calls, this`steps
      ensures step.name == stepDef.name && step.input == stepInput
      ensures step.status.StepFailed? <==> step.output.None?
      ensures var n := Next(c, r);
              && Tracks(n, calls0, steps0)
              && n.phase == if !stored then Ended(InsertFailed(i))
                            else if step.output.None? then Rollback(i, r.phase.done, i)
                            else Forward(i + 1, step.output.value, r.phase.done + [stepInput])
    {
      step := ExecuteStep(w.id, i, stepDef, stepInput, w.input);
      if stored {
        steps := steps + [step];
      }
    }

    /**
     * The forward loop. It stops after the last step, or at the step i whose row could not be
     * stored, or at the step i that failed; `r` is where `Finish` has come to.
     */
    method RunSteps(seen: Workflow, def: Definition<W>, faults: Faults, ghost c: Config<W>)
      returns (i: nat, w: Workflow, completedSteps: seq<WorkflowStep>, ghost r: RunState<W>)
      requires seen.id in workflows
      requires c == Config(seen.id, def.steps, seen.input, failStep, faults.insertOk)
      modifies this`workflows, this`steps, this`world, this`calls, this`log
      ensures Fits(c, r) && Finish(c, r) == Finish(c, Start(c, old(world)))
      ensures Tracks(r, old(calls), old(steps))
      ensures i <= |c.steps| && |completedSteps| == i
      ensures forall j | 0 <= j < i :: completedSteps[j].name == c.steps[j].name
      ensures match r.phase
              case Forward(k, _, _) => k == i == |c.steps|
              case Rollback(j, done, k) =>
                j == k == i < |c.steps| && done == Inputs(completedSteps) && faults.insertOk(i)
              case Ended(v) => v == InsertFailed(i) && i < |c.steps| && !faults.insertOk(i)
      ensures var n := if r.phase.Forward? then i else i + 1;
              w == Announced(c, seen, n) && Shows(c, seen, n, faults.statusOk, old(workflows), old(log))
    {
      hide Finish, Next, Persisted, StatusLog;
      r := Start(c, world);
      ghost var f := Finish(c, r);
      w := seen.(status := Running);
      ShowStep(w, c, seen, 0, faults.statusOk, workflows, log);
      var stepInput := w.input;
      completedSteps := [];
      i := 0;
      while i < |def.steps|
        invariant 0 <= i <= |def.steps|
        invariant w == Announced(c, seen, i)
        invariant r.phase == Forward(i, stepInput, Inputs(completedSteps)) && |completedSteps| == i
        invariant Tracks(r, old(calls), old(steps))
        invariant forall j | 0 <= j < i :: completedSteps[j].name == c.steps[j].name
        invariant Finish(c, r) == f
        invariant Shows(c, seen, i, faults.statusOk, old(workflows), old(log))
      {
        var stepDef := def.steps[i];
        w := w.(currentStep := stepDef.name);
        ShowStep(w, c, seen, i + 1, faults.statusOk, old(workflows), old(log));
        Resume(c, r);
        var step := RunStep(i, stepDef, stepInput, w, faults.insertOk(i), c, r, old(calls), old(steps));
        r := Next(c, r);
        if !faults.insertOk(i) || step.status == StepFailed {
          return;
        }
        assert Inputs(completedSteps + [step]) == Inputs(completedSteps) + [stepInput];
        completedSteps := completedSteps + [step];
        stepInput := step.output.value;
        i := i + 1;
      }
    }

    /** The part of a run between lock and unlock. */
    method RunLocked(seen: Workflow, def: Definition<W>, faults: Faults) returns (err: RunError)
      requires seen.id in workflows
      requires seen.name in registry && registry[seen.name] == def
      modifies this`workflows, this`steps, this`world, this`calls, this`log
      ensures var c := ConfigOf(seen, faults.insertOk);
              var f := Finish(c, Start(c, old(world)));
              && world == f.world && calls == old(calls) + f.calls && steps == old(steps) + f.rows
              && Final(c, seen, f.phase.verdict, faults.statusOk, old(workflows), old(log))
              && err == match f.phase.verdict
                        case Completed => NoError
                        case RolledBack(k) => FailedAtStep(c.steps[k].name)
                        case InsertFailed(_) => StepNotStored
    {
      hide Finish, Next, Final;
      ghost var c := ConfigOf(seen, faults.insertOk);
      var i, w, completedSteps, r := RunSteps(seen, def, faults, c);
      if i == |def.steps| {
        ForwardEnds(c, r);
        MarkCompleted(w, i, c, seen, faults.statusOk, old(workflows), old(log));
        return NoError;
      }
      if !faults.insertOk(i) {
        AlreadyEnded(c, r);
        StoppedIsFinal(c, seen, i, faults.statusOk, old(workflows), old(log));
        return StepNotStored;
      }
      RollbackFrom(c, r);
      err := CompensateRun(w, completedSteps, c, seen, faults.statusOk, old(workflows), old(log));
    }

    /** The row found and the status log are those of a run that ended with v. */
    ghost predicate Final(c: Config<W>, seen: Workflow, v: Verdict, ok: nat -> bool,
                          workflows0: map<string, Workflow>, log0: seq<Status>)
      reads this, cache
    {
      && (v.Completed? || v.at < |c.steps|)
      && seen.id in workflows0
      && workflows == workflows0[seen.id := Persisted(workflows0[seen.id], Updates(c, seen, v, cache.now), ok)]
      && log == log0 + StatusLog(Updates(c, seen, v, cache.now), ok)
    }

    lemma StoppedIsFinal(c: Config<W>, seen: Workflow, i: nat, ok: nat -> bool,
                         workflows0: map<string, Workflow>, log0: seq<Status>)
      requires i < |c.steps| && Shows(c, seen, i + 1, ok, workflows0, log0)
      ensures Final(c, seen, InsertFailed(i), ok, workflows0, log0)
    {
    }

    method MarkCompleted(w: Workflow, n: nat, ghost c: Config<W>, ghost seen: Workflow, ok: nat -> bool,
                         ghost workflows0: map<string, Workflow>, ghost log0: seq<Status>)
      requires n == |c.steps| && w == Announced(c, seen, n) && Shows(c, seen, n, ok, workflows0, log0)
      modifies this`workflows, this`log
      ensures Final(c, seen, Verdict.Completed, ok, workflows0, log0)
    {
      hide Persisted, StatusLog, Updates;
      Announce(c, seen, workflows0[seen.id], n, ok);
      TailOfCompleted(c, seen, workflows0[seen.id], cache.now, ok);
      UpdateWorkflow(w.(status := Status.Completed, completedAt := Some(cache.now)), ok(n + 1));
    }

    /** Compensates a run that failed at step |completed|. */
    method CompensateRun(w: Workflow, completed: seq<WorkflowStep>, ghost c: Config<W>, ghost seen: Workflow,
                         ok: nat -> bool, ghost workflows0: map<string, Workflow>, ghost log0: seq<Status>)
      returns (err: RunError)
      requires w.name in registry && registry[w.name].steps == c.steps && |completed| < |c.steps|
      requires forall j | 0 <= j < |completed| :: completed[j].name == c.steps[j].name
      requires w == Announced(c, seen, |completed| + 1) && Shows(c, seen, |completed| + 1, ok, workflows0, log0)
      modifies this`world, this`calls, this`workflows, this`log
      ensures err == FailedAtStep(w.currentStep)
      ensures var k := |completed|;
              var f := Finish(c, RunState(Rollback(k, Inputs(completed), k), old(world), [], []));
              world == f.world && calls == old(calls) + f.calls
      ensures Final(c, seen, RolledBack(|completed|), ok, workflows0, log0)
    {
      hide Finish, Next, Persisted, StatusLog, Updates, Announcements;
      var k := |completed|;
      Announce(c, seen, workflows0[seen.id], k + 1, ok);
      TailOfFailed(c, seen, workflows0[seen.id], k, cache.now, ok);
      err := Compensate(w, completed, c, k + 2, ok);
    }
  }

  /**
   * The first n + 1 updates: the last of them is the row announcing step n - 1, and what survives
   * of them leaves id, name and input of the row `cur` alone.
   */
  lemma Announce<W>(c: Config<W>, seen: Workflow, cur: Workflow, n: nat, ok: nat -> bool)
    requires n <= |c.steps|
    ensures var all, last := Announcements(c, seen, n), Announced(c, seen, n);
            var before := if n == 0 then [] else Announcements(c, seen, n - 1);
            && Persisted(cur, all, ok) == (if ok(n) then Write(cur, last) else Persisted(cur, before, ok))
            && StatusLog(all, ok) == StatusLog(before, ok) + (if ok(n) then [last.status] else [])
    ensures Persisted(cur, [], ok) == cur && StatusLog([], ok) == []
    ensures SameWork(Persisted(cur, Announcements(c, seen, n), ok), cur)
  {
    PersistedKeeps(cur, Announcements(c, seen, n), ok);
    assert Announcements(c, seen, n)[..n] == if n == 0 then [] else Announcements(c, seen, n - 1);
  }

  /** A rollback does not depend on the calls and rows that came before it. */
  lemma {:induction false} RollbackFrom<W>(c: Config<W>, r: RunState<W>)
    requires Fits(c, r) && r.phase.Rollback?
    ensures var alone := Finish(c, r.(calls := [], rows := []));
            var f := Finish(c, r);
            && f.world == alone.world && f.calls == r.calls + alone.calls
            && f.rows == r.rows && f.phase == Ended(RolledBack(r.phase.at))
    decreases r.phase.j
  {
    hide Finish, Next;
    RollbackCalls(c, r, r.phase.done);
    RollbackCalls(c, r.(calls := [], rows := []), r.phase.done);
    RollbackWorld(c, r, r.(calls := [], rows := []));
  }

  lemma {:induction false} RollbackWorld<W>(c: Config<W>, r: RunState<W>, q: RunState<W>)
    requires Fits(c, r) && r.phase.Rollback? && q.phase == r.phase && q.world == r.world
    ensures Finish(c, r).world == Finish(c, q).world
    decreases r.phase.j
  {
    var n, m := Next(c, r), Next(c, q);
    if r.phase.j > 0 {
      RollbackWorld(c, n, m);
    } else {
      assert Finish(c, n) == n && Finish(c, m) == m;
    }
  }

  /** The last update of a completed run, in terms of what the first ones left. */
  lemma TailOfCompleted<W>(c: Config<W>, seen: Workflow, cur: Workflow, now: int, ok: nat -> bool)
    ensures var n := |c.steps|;
            var all, first := Updates(c, seen, Verdict.Completed, now), Announcements(c, seen, n);
            var last := Announced(c, seen, n).(status := Status.Completed, completedAt := Some(now));
            && Persisted(cur, all, ok) == (if ok(n + 1) then Write(cur, last) else Persisted(cur, first, ok))
            && StatusLog(all, ok) == StatusLog(first, ok) + if ok(n + 1) then [Status.Completed] else []
  {
    var all := Updates(c, seen, Verdict.Completed, now);
    assert all[..|c.steps| + 1] == Announcements(c, seen, |c.steps|);
  }

  /** The last two updates of a failed run, likewise. */
  lemma TailOfFailed<W>(c: Config<W>, seen: Workflow, cur: Workflow, k: nat, now: int, ok: nat -> bool)
    requires k < |c.steps|
    ensures var all, first := Updates(c, seen, RolledBack(k), now), Announcements(c, seen, k + 1);
            var last := Announced(c, seen, k + 1);
            && Persisted(cur, all, ok) ==
                 (if ok(k + 3) then Write(cur, last.(status := Failed))
                  else if ok(k + 2) then Write(cur, last.(status := Compensating))
                  else Persisted(cur, first, ok))
            && StatusLog(all, ok) == StatusLog(first, ok)
                 + (if ok(k + 2) then [Compensating] else []) + (if ok(k + 3) then [Failed] else [])
  {
    var all, first := Updates(c, seen, RolledBack(k), now), Announcements(c, seen, k + 1);
    assert all[..k + 3][..k + 2] == first;
  }
}
