/**
 * The workflow engine: a forward loop over the step definitions, and on a failed step a
 * reverse loop over the completed prefix. `Next` is one iteration of whichever loop a run is
 * in; `Finish` iterates it to the end. The engine object itself is in `WorkflowEngine`.
 */
module Saga {
  import opened Prelude

  /** A JSON document: its text, and the string under "demoFailStep" when it is an object holding one. */
  datatype Payload = Payload(body: string, demoFailStep: Option<string>)

  /**
   * A step acts on a world `W` of side effects. `execute` returns the output, or None for an
   * error; `compensation` is None for a nil function, and returns whether it succeeded.
   */
  datatype StepDefinition<!W> = StepDefinition(
    name: string,
    execute: (W, Payload) -> (W, Option<Payload>),
    compensation: Option<(W, Payload) -> (W, bool)>)

  datatype StepStatus = StepCompleted | StepFailed

  datatype WorkflowStep = WorkflowStep(
    workflowId: string, name: string, status: StepStatus, input: Payload, output: Option<Payload>)

  /** What a single run is given; `insertOk(i)` says whether the step row at position i can be stored. */
  datatype Config<!W> = Config(
    id: string, steps: seq<StepDefinition<W>>, input: Payload, failStep: string, insertOk: nat -> bool)

  /**
   * An observable call, naming the definition by its position in the workflow: equal definitions
   * at two positions still make different calls.
   */
  datatype Call = Execute(pos: nat, input: Payload) | Compensate(pos: nat, input: Payload)

  datatype Verdict = Completed | RolledBack(at: nat) | InsertFailed(at: nat)

  /** `done[j]` is the input that completed step j was given. */
  datatype Phase =
    | Forward(i: nat, input: Payload, done: seq<Payload>)
    | Rollback(j: nat, done: seq<Payload>, at: nat)
    | Ended(verdict: Verdict)

  datatype RunState<W> = RunState(phase: Phase, world: W, calls: seq<Call>, rows: seq<WorkflowStep>)

  predicate ShouldFailStep(failStep: string, input: Payload, name: string) {
    failStep == name || input.demoFailStep == Some(name)
  }

  /** The position a map filled in definition order keeps for `name`: the last one. */
  function Lookup<W>(steps: seq<StepDefinition<W>>, name: string): (p: Option<nat>)
    ensures p.Some? ==> p.value < |steps| && steps[p.value].name == name
    ensures forall q | 0 <= q < |steps| && steps[q].name == name :: p.Some? && q <= p.value
  {
    if steps == [] then None
    else if steps[|steps| - 1].name == name then Some(|steps| - 1)
    else Lookup(steps[..|steps| - 1], name)
  }

  predicate Fits<W>(c: Config<W>, r: RunState<W>) {
    match r.phase
    case Forward(i, _, done) => i == |done| <= |c.steps|
    case Rollback(j, done, at) => j <= |done| == at < |c.steps|
    case Ended(_) => true
  }

  function Start<W>(c: Config<W>, world: W): RunState<W> {
    RunState(Forward(0, c.input, []), world, [], [])
  }

  /** One iteration: execute and record a step, or compensate one. */
  function Next<W>(c: Config<W>, r: RunState<W>): (r': RunState<W>)
    requires Fits(c, r) && !r.phase.Ended?
    ensures Fits(c, r')
  {
    match r.phase
    case Forward(i, input, done) =>
      if i == |c.steps| then
        r.(phase := Ended(Completed))
      else
        var s := c.steps[i];
        var injected := ShouldFailStep(c.failStep, c.input, s.name);
        var (world, output) := if injected then (r.world, None) else s.execute(r.world, input);
        var calls := if injected then r.calls else r.calls + [Execute(i, input)];
        var row := WorkflowStep(c.id, s.name, if output.None? then StepFailed else StepCompleted, input, output);
        if !c.insertOk(i) then
          RunState(Ended(InsertFailed(i)), world, calls, r.rows)
        else if output.None? then
          RunState(Rollback(i, done, i), world, calls, r.rows + [row])
        else
          RunState(Forward(i + 1, output.value, done + [input]), world, calls, r.rows + [row])
    case Rollback(j, done, at) =>
      if j == 0 then
        r.(phase := Ended(RolledBack(at)))
      else
        var p := Lookup(c.steps, c.steps[j - 1].name);
        var back := r.(phase := Rollback(j - 1, done, at));
        if p.None? || c.steps[p.value].compensation.None? then back
        else
          var comp := c.steps[p.value].compensation.value;
          back.(world := comp(r.world, done[j - 1]).0,
                calls := r.calls + [Compensate(p.value, done[j - 1])])
  }

  function Remaining<W>(c: Config<W>, r: RunState<W>): nat
    requires Fits(c, r)
  {
    match r.phase
    case Forward(i, _, _) => 2 * |c.steps| + 2 - i
    case Rollback(j, _, _) => j + 1
    case Ended(_) => 0
  }

  lemma NextCloser<W>(c: Config<W>, r: RunState<W>)
    requires Fits(c, r) && !r.phase.Ended?
    ensures Remaining(c, Next(c, r)) < Remaining(c, r)
  {
  }

  /** The run from `r` to its end, undisturbed. */
  function Finish<W>(c: Config<W>, r: RunState<W>): (f: RunState<W>)
    requires Fits(c, r)
    ensures f.phase.Ended?
    decreases Remaining(c, r)
  {
    if r.phase.Ended? then r else Finish(c, Next(c, r))
  }

  lemma Resume<W>(c: Config<W>, r: RunState<W>)
    requires Fits(c, r) && !r.phase.Ended?
    ensures Finish(c, r) == Finish(c, Next(c, r))
  {
  }

  lemma AlreadyEnded<W>(c: Config<W>, r: RunState<W>)
    requires Fits(c, r) && r.phase.Ended?
    ensures Finish(c, r) == r
  {
  }

  lemma RollbackEnds<W>(c: Config<W>, r: RunState<W>)
    requires Fits(c, r) && r.phase.Rollback? && r.phase.j == 0
    ensures Finish(c, r) == r.(phase := Ended(RolledBack(r.phase.at)))
  {
    AlreadyEnded(c, Next(c, r));
  }

  lemma ForwardEnds<W>(c: Config<W>, r: RunState<W>)
    requires Fits(c, r) && r.phase.Forward? && r.phase.i == |c.steps|
    ensures Finish(c, r) == r.(phase := Ended(Completed))
  {
    AlreadyEnded(c, Next(c, r));
  }

  // ---------------------------------------------------------------- exact traces

  /** The calls of steps 0..n-1, each on the input its row records. */
  function Executions(rows: seq<WorkflowStep>, n: nat): seq<Call>
    requires n <= |rows|
  {
    seq(n, j requires 0 <= j < n => Execute(j, rows[j].input))
  }

  /** The call that compensating step j makes: the compensation of the definition its name leads to. */
  function ByName<W>(steps: seq<StepDefinition<W>>, j: nat, input: Payload): seq<Call>
    requires j < |steps|
  {
    var p := Lookup(steps, steps[j].name).value;
    if steps[p].compensation.Some? then [Compensate(p, input)] else []
  }

  /** Steps k-1..0 compensated through the name lookup the engine uses. */
  function RollbackByName<W>(steps: seq<StepDefinition<W>>, inputs: seq<Payload>, k: nat): seq<Call>
    requires k <= |inputs| && k <= |steps|
  {
    if k == 0 then [] else ByName(steps, k - 1, inputs[k - 1]) + RollbackByName(steps, inputs, k - 1)
  }

  /** What a saga promises: the non-nil compensations of steps k-1..0, each its own. */
  function RollbackLifo<W>(steps: seq<StepDefinition<W>>, inputs: seq<Payload>, k: nat): seq<Call>
    requires k <= |inputs| && k <= |steps|
  {
    if k == 0 then [] else
      (if steps[k - 1].compensation.Some? then [Compensate(k - 1, inputs[k - 1])] else [])
      + RollbackLifo(steps, inputs, k - 1)
  }

  /** Every step before k owns its name, unless neither it nor the owner has a compensation. */
  predicate OwnNames<W>(steps: seq<StepDefinition<W>>, k: nat)
    requires k <= |steps|
  {
    forall j | 0 <= j < k :: OwnsName(steps, j)
  }

  function Inputs(rows: seq<WorkflowStep>): seq<Payload> {
    seq(|rows|, j requires 0 <= j < |rows| => rows[j].input)
  }

  /** The persisted rows of a run that began step n: the executed prefix, chained input to output, all stored. */
  ghost predicate StepLog<W>(c: Config<W>, rows: seq<WorkflowStep>) {
    && |rows| <= |c.steps|
    && (forall j | 0 <= j < |rows| :: c.insertOk(j))
    && (forall j | 0 <= j < |rows| :: rows[j].workflowId == c.id && rows[j].name == c.steps[j].name)
    && (forall j | 0 <= j < |rows| :: rows[j].status.StepFailed? <==> rows[j].output.None?)
    && (forall j | 0 <= j < |rows| - 1 :: rows[j].status.StepCompleted? && rows[j].output == Some(rows[j + 1].input))
    && (|rows| > 0 ==> rows[0].input == c.input)
  }

  ghost predicate ForwardShape<W>(c: Config<W>, r: RunState<W>)
    requires r.phase.Forward?
  {
    && Fits(c, r)
    && StepLog(c, r.rows)
    && |r.rows| == r.phase.i
    && r.phase.done == Inputs(r.rows)
    && r.calls == Executions(r.rows, |r.rows|)
    && (|r.rows| == 0 ==> r.phase.input == c.input)
    && (|r.rows| > 0 ==> r.rows[|r.rows| - 1].output == Some(r.phase.input))
  }

  ghost predicate Injected<W>(c: Config<W>, k: nat)
    requires k < |c.steps|
  {
    ShouldFailStep(c.failStep, c.input, c.steps[k].name)
  }

  /** The call step k itself contributes when the run stops there. */
  function LastCall<W>(c: Config<W>, k: nat, input: Payload): seq<Call>
    requires k < |c.steps|
  {
    if ShouldFailStep(c.failStep, c.input, c.steps[k].name) then [] else [Execute(k, input)]
  }

  /** How the calls, rows and verdict of an ended run fit together. */
  ghost predicate Outcome<W>(c: Config<W>, f: RunState<W>)
    requires f.phase.Ended?
  {
    && StepLog(c, f.rows)
    && match f.phase.verdict
       case Completed =>
         && |f.rows| == |c.steps|
         && (forall j | 0 <= j < |f.rows| :: f.rows[j].status.StepCompleted?)
         && f.calls == Executions(f.rows, |f.rows|)
       case RolledBack(k) =>
         && k < |c.steps| && |f.rows| == k + 1 && f.rows[k].status.StepFailed?
         && f.calls == Executions(f.rows, k) + LastCall(c, k, f.rows[k].input)
                       + RollbackByName(c.steps, Inputs(f.rows), k)
       case InsertFailed(k) =>
         && k < |c.steps| && |f.rows| == k && !c.insertOk(k)
         && (forall j | 0 <= j < |f.rows| :: f.rows[j].status.StepCompleted?)
         && f.calls == Executions(f.rows, k)
              + LastCall(c, k, if k == 0 then c.input else f.rows[k - 1].output.value)
  }

  lemma {:induction false} RollbackCalls<W>(c: Config<W>, r: RunState<W>, inputs: seq<Payload>)
    requires Fits(c, r) && r.phase.Rollback?
    requires |inputs| >= |r.phase.done| && r.phase.done == inputs[..|r.phase.done|]
    ensures var f := Finish(c, r);
            && f.calls == r.calls + RollbackByName(c.steps, inputs, r.phase.j)
            && f.rows == r.rows && f.phase == Ended(RolledBack(r.phase.at))
    decreases r.phase.j
  {
    hide Finish;
    if r.phase.j > 0 {
      Resume(c, r);
      BackStep(c, r, inputs);
      RollbackCalls(c, Next(c, r), inputs);
    } else {
      RollbackEnds(c, r);
      assert r.calls + [] == r.calls;
    }
  }

  lemma BackCall<W>(c: Config<W>, r: RunState<W>)
    requires Fits(c, r) && r.phase.Rollback? && r.phase.j > 0
    ensures var n, j := Next(c, r), r.phase.j - 1;
            && n.phase == Rollback(j, r.phase.done, r.phase.at) && n.rows == r.rows
            && n.calls == r.calls + ByName(c.steps, j, r.phase.done[j])
  {
    hide Lookup;
  }

  lemma RollbackByNameStep<W>(steps: seq<StepDefinition<W>>, inputs: seq<Payload>, k: nat)
    requires k < |inputs| && k < |steps|
    ensures RollbackByName(steps, inputs, k + 1) == ByName(steps, k, inputs[k]) + RollbackByName(steps, inputs, k)
  {
  }

  lemma BackStep<W>(c: Config<W>, r: RunState<W>, inputs: seq<Payload>)
    requires Fits(c, r) && r.phase.Rollback? && r.phase.j > 0
    requires |inputs| >= |r.phase.done| && r.phase.done == inputs[..|r.phase.done|]
    ensures var n := Next(c, r);
            && n.phase == Rollback(r.phase.j - 1, r.phase.done, r.phase.at) && n.rows == r.rows
            && n.calls + RollbackByName(c.steps, inputs, r.phase.j - 1)
               == r.calls + RollbackByName(c.steps, inputs, r.phase.j)
  {
    hide Next, ByName, RollbackByName, Lookup;
    BackCall(c, r);
    RollbackByNameStep(c.steps, inputs, r.phase.j - 1);
    var j := r.phase.j - 1;
    var here, rest := ByName(c.steps, j, inputs[j]), RollbackByName(c.steps, inputs, j);
    assert r.phase.done[j] == inputs[j];
    assert (r.calls + here) + rest == r.calls + (here + rest);
  }

  lemma StepExtends<W>(c: Config<W>, r: RunState<W>)
    requires r.phase.Forward? && ForwardShape(c, r) && Next(c, r).phase.Forward?
    ensures ForwardShape(c, Next(c, r))
  {
    var n := Next(c, r);
    var i := r.phase.i;
    assert n.calls == Executions(n.rows, i + 1) by {
      assert n.rows[i].input == r.phase.input;
      assert n.calls == Executions(r.rows, i) + [Execute(i, r.phase.input)];
    }
    assert n.phase.done == Inputs(n.rows);
  }

  lemma FailedStep<W>(c: Config<W>, r: RunState<W>)
    requires r.phase.Forward? && ForwardShape(c, r) && Next(c, r).phase.Rollback?
    ensures var n, k := Next(c, r), r.phase.i;
            && k < |c.steps| && n.phase == Rollback(k, r.phase.done, k)
            && StepLog(c, n.rows) && |n.rows| == k + 1 && n.rows[k].status.StepFailed?
            && Inputs(n.rows)[..k] == r.phase.done
            && n.calls == Executions(n.rows, k) + LastCall(c, k, n.rows[k].input)
  {
    var n, k := Next(c, r), r.phase.i;
    assert n.rows[..k] == r.rows && n.rows[k].input == r.phase.input;
    assert Executions(n.rows, k) == Executions(r.rows, k);
    assert Inputs(n.rows)[..k] == Inputs(r.rows);
  }

  lemma StepFails<W>(c: Config<W>, r: RunState<W>)
    requires r.phase.Forward? && ForwardShape(c, r) && Next(c, r).phase.Rollback?
    ensures Outcome(c, Finish(c, r))
  {
    var n, k := Next(c, r), r.phase.i;
    hide Finish, Next, StepLog;
    FailedStep(c, r);
    RollbackCalls(c, n, Inputs(n.rows));
    Resume(c, r);
  }

  lemma StepEnds<W>(c: Config<W>, r: RunState<W>)
    requires r.phase.Forward? && ForwardShape(c, r) && Next(c, r).phase.Ended?
    ensures Outcome(c, Finish(c, r))
  {
    var n := Next(c, r);
    assert Finish(c, n) == n;
    assert n.rows == r.rows;
    assert forall j | 0 <= j < |r.rows| :: r.rows[j].status.StepCompleted?;
  }

  lemma {:induction false} ForwardOutcome<W>(c: Config<W>, r: RunState<W>)
    requires r.phase.Forward? && ForwardShape(c, r)
    ensures Outcome(c, Finish(c, r))
    decreases Remaining(c, r)
  {
    var n := Next(c, r);
    match n.phase
    case Forward(_, _, _) =>
      StepExtends(c, r);
      ForwardOutcome(c, n);
    case Rollback(_, _, _) => StepFails(c, r);
    case Ended(_) => StepEnds(c, r);
  }

  /** Every run: its rows are the executed prefix, and its calls are fixed by them and the verdict. */
  lemma RunOutcome<W>(c: Config<W>, world: W)
    ensures Outcome(c, Finish(c, Start(c, world)))
  {
    var r := Start(c, world);
    assert r.calls == Executions(r.rows, 0);
    ForwardOutcome(c, r);
  }

  lemma {:induction false} LifoPositions<W>(steps: seq<StepDefinition<W>>, inputs: seq<Payload>, k: nat, call: Call)
    requires k <= |inputs| && k <= |steps|
    requires call in RollbackLifo(steps, inputs, k)
    ensures call.pos < k
  {
    if k > 0 && call in RollbackLifo(steps, inputs, k - 1) {
      LifoPositions(steps, inputs, k - 1, call);
    }
  }

  lemma {:induction false} ByNamePositions<W>(steps: seq<StepDefinition<W>>, inputs: seq<Payload>, k: nat, call: Call)
    requires k <= |inputs| && k <= |steps|
    requires call in RollbackByName(steps, inputs, k)
    ensures call.pos < |steps| && steps[call.pos].compensation.Some?
    ensures Lookup(steps, steps[call.pos].name) == Some(call.pos)
  {
    if call in RollbackByName(steps, inputs, k - 1) {
      ByNamePositions(steps, inputs, k - 1, call);
    }
  }

  predicate OwnsName<W>(steps: seq<StepDefinition<W>>, j: nat)
    requires j < |steps|
  {
    var p := Lookup(steps, steps[j].name).value;
    p == j || (steps[p].compensation.None? && steps[j].compensation.None?)
  }

  lemma LifoStep<W>(steps: seq<StepDefinition<W>>, inputs: seq<Payload>, k: nat)
    requires k < |inputs| && k < |steps|
    ensures RollbackByName(steps, inputs, k + 1) == RollbackLifo(steps, inputs, k + 1) <==>
            RollbackByName(steps, inputs, k) == RollbackLifo(steps, inputs, k) && OwnsName(steps, k)
  {
    hide Lookup;
    var p := Lookup(steps, steps[k].name).value;
    var byName, lifo := RollbackByName(steps, inputs, k), RollbackLifo(steps, inputs, k);
    var all := RollbackByName(steps, inputs, k + 1);
    if steps[p].compensation.Some? {
      assert all == [Compensate(p, inputs[k])] + byName;
      assert all[1..] == byName && all[0].pos == p;
      if steps[k].compensation.Some? {
        assert RollbackLifo(steps, inputs, k + 1)[1..] == lifo;
      } else if all == lifo {
        LifoPositions(steps, inputs, k, lifo[0]);
      }
    } else {
      assert all == byName;
      if steps[k].compensation.Some? && byName == RollbackLifo(steps, inputs, k + 1) {
        assert byName[0] in byName && byName[0].pos == k;
        ByNamePositions(steps, inputs, k, byName[0]);
        assert false;
      }
    }
  }

  lemma NothingToRollBack<W>(steps: seq<StepDefinition<W>>, inputs: seq<Payload>)
    ensures RollbackByName(steps, inputs, 0) == RollbackLifo(steps, inputs, 0) && OwnNames(steps, 0)
  {
  }

  lemma OwnNamesStep<W>(steps: seq<StepDefinition<W>>, k: nat)
    requires k < |steps|
    ensures OwnNames(steps, k + 1) <==> OwnNames(steps, k) && OwnsName(steps, k)
  {
    hide OwnsName;
  }

  /** The rollback is the promised LIFO one exactly when the definition passes the name check. */
  lemma {:induction false} LifoExactlyWhenNamesAreOwned<W>(steps: seq<StepDefinition<W>>, inputs: seq<Payload>, k: nat)
    requires k <= |inputs| && k <= |steps|
    ensures RollbackByName(steps, inputs, k) == RollbackLifo(steps, inputs, k) <==> OwnNames(steps, k)
  {
    hide RollbackByName, RollbackLifo, OwnsName, OwnNames, Lookup;
    if k == 0 {
      NothingToRollBack(steps, inputs);
    } else {
      LifoExactlyWhenNamesAreOwned(steps, inputs, k - 1);
      LifoStep(steps, inputs, k - 1);
      OwnNamesStep(steps, k - 1);
    }
  }

  ghost predicate DistinctNames<W>(steps: seq<StepDefinition<W>>) {
    forall i, j | 0 <= i < j < |steps| :: steps[i].name != steps[j].name
  }

  lemma DistinctNamesAreOwned<W>(steps: seq<StepDefinition<W>>, k: nat)
    requires DistinctNames(steps) && k <= |steps|
    ensures OwnNames(steps, k)
  {
  }

  /**
   * A run that fails at step k is: executions in order, then the exact LIFO rollback, if and only
   * if the steps before k own their names; which they do if names are distinct.
   */
  lemma ExactRollback<W>(c: Config<W>, world: W)
    ensures var f := Finish(c, Start(c, world));
            f.phase.verdict.RolledBack? ==>
              var k := f.phase.verdict.at;
              && k < |c.steps| && |f.rows| == k + 1
              && var lifo := RollbackLifo(c.steps, Inputs(f.rows), k);
              && (f.calls == Executions(f.rows, k) + LastCall(c, k, f.rows[k].input) + lifo <==> OwnNames(c.steps, k))
              && (DistinctNames(c.steps) ==> OwnNames(c.steps, k))
  {
    hide Finish, Lookup, RollbackByName, RollbackLifo, OwnNames;
    RunOutcome(c, world);
    var f := Finish(c, Start(c, world));
    if f.phase.verdict.RolledBack? {
      var k := f.phase.verdict.at;
      LifoExactlyWhenNamesAreOwned(c.steps, Inputs(f.rows), k);
      if DistinctNames(c.steps) { DistinctNamesAreOwned(c.steps, k); }
      var first := Executions(f.rows, k) + LastCall(c, k, f.rows[k].input);
      SameTail(first, RollbackByName(c.steps, Inputs(f.rows), k), RollbackLifo(c.steps, Inputs(f.rows), k));
    }
  }

  lemma SameTail(first: seq<Call>, a: seq<Call>, b: seq<Call>)
    ensures first + a == first + b <==> a == b
  {
    assert (first + a)[|first|..] == a && (first + b)[|first|..] == b;
  }

  /**
   * Two steps of one name, adding 1 and 10, and a third that fails cleanly: the later is
   * compensated twice and the earlier never, and although each would undo its own step the run
   * leaves the world at -9.
   */
  lemma SharedNameBreaksLifo()
    ensures var p := Payload("", None);
            var a := Adding("s", 1);
            var b := Adding("s", 10);
            var bad := StepDefinition("t", (w: int, p: Payload) => (w, None), None);
            var c := Config("id", [a, b, bad], p, "", (i: nat) => true);
            var f := Finish(c, Start(c, 0));
            && Reversible(a) && Reversible(b) && FailsCleanly(bad)
            && f.phase.verdict == RolledBack(2) && f.world == -9
            && f.calls == [Execute(0, p), Execute(1, p), Execute(2, p), Compensate(1, p), Compensate(1, p)]
            && RollbackLifo(c.steps, Inputs(f.rows), 2) == [Compensate(1, p), Compensate(0, p)]
  {
    var p := Payload("", None);
    var a := Adding("s", 1);
    var b := Adding("s", 10);
    var bad := StepDefinition("t", (w: int, p: Payload) => (w, None), None);
    var c := Config("id", [a, b, bad], p, "", (i: nat) => true);
    assert [a, b, bad][..2] == [a, b];
    assert Lookup([a, b], "s") == Some(1);
    assert Lookup(c.steps, "s") == Some(1);
    var r0 := Start(c, 0);
    var r1 := Next(c, r0);
    var r2 := Next(c, r1);
    var r3 := Next(c, r2);
    var r4 := Next(c, r3);
    var r5 := Next(c, r4);
    var r6 := Next(c, r5);
    assert r3.phase == Rollback(2, [p, p], 2) && r5.phase == Rollback(0, [p, p], 2);
    Resume(c, r0);
    Resume(c, r1);
    Resume(c, r2);
    Resume(c, r3);
    Resume(c, r4);
    Resume(c, r5);
    AlreadyEnded(c, r6);
    assert RollbackLifo(c.steps, Inputs(r6.rows), 1) == [Compensate(0, p)];
  }

  /** A step that adds n to a number, and a compensation that takes it away again. */
  function Adding(name: string, n: int): StepDefinition<int> {
    StepDefinition(name, (w: int, p: Payload) => (w + n, Some(p)), Some((w: int, p: Payload) => (w - n, true)))
  }

  // ---------------------------------------------------------------- effects

  /** The world after steps 0..n-1 have acted on `world`, each on the input its row records. */
  function WorldAfter<W>(steps: seq<StepDefinition<W>>, rows: seq<WorkflowStep>, n: nat, world: W): W
    requires n <= |steps| && n <= |rows|
  {
    if n == 0 then world
    else steps[n - 1].execute(WorldAfter(steps, rows, n - 1, world), rows[n - 1].input).0
  }

  /** Row j records what step j returned in the world it found. */
  ghost predicate RowTrue<W>(c: Config<W>, rows: seq<WorkflowStep>, j: nat, world: W)
    requires j < |rows| && j < |c.steps|
  {
    if Injected(c, j) then rows[j].output.None?
    else rows[j].output == c.steps[j].execute(WorldAfter(c.steps, rows, j, world), rows[j].input).1
  }

  lemma {:induction false} WorldAfterPrefix<W>(steps: seq<StepDefinition<W>>, rows: seq<WorkflowStep>,
                                              more: seq<WorkflowStep>, n: nat, world: W)
    requires n <= |steps| && n <= |rows|
    ensures WorldAfter(steps, rows + more, n, world) == WorldAfter(steps, rows, n, world)
  {
    if n > 0 { WorldAfterPrefix(steps, rows, more, n - 1, world); }
  }

  lemma RowsStayTrue<W>(c: Config<W>, rows: seq<WorkflowStep>, more: seq<WorkflowStep>, world: W)
    requires |rows| + |more| <= |c.steps| && forall j | 0 <= j < |rows| :: RowTrue(c, rows, j, world)
    ensures forall j | 0 <= j < |rows| :: RowTrue(c, rows + more, j, world)
  {
    forall j | 0 <= j < |rows| ensures RowTrue(c, rows + more, j, world) {
      WorldAfterPrefix(c.steps, rows, more, j, world);
      assert RowTrue(c, rows, j, world);
    }
  }

  /** The input the step after `rows` is given. */
  function NextInput<W>(c: Config<W>, rows: seq<WorkflowStep>): Payload {
    if rows == [] then c.input
    else match rows[|rows| - 1].output
      case Some(output) => output
      case None => c.input
  }

  /** The world after steps k-1..0 have been compensated through their names, whatever the compensations return. */
  function Compensated<W>(steps: seq<StepDefinition<W>>, inputs: seq<Payload>, k: nat, world: W): W
    requires k <= |inputs| && k <= |steps|
    decreases k
  {
    if k == 0 then world else
      var s := steps[Lookup(steps, steps[k - 1].name).value];
      Compensated(steps, inputs, k - 1,
                  if s.compensation.None? then world else s.compensation.value(world, inputs[k - 1]).0)
  }

  lemma {:induction false} RollbackLeaves<W>(c: Config<W>, r: RunState<W>, inputs: seq<Payload>)
    requires Fits(c, r) && r.phase.Rollback?
    requires |inputs| >= |r.phase.done| && r.phase.done == inputs[..|r.phase.done|]
    ensures Finish(c, r).world == Compensated(c.steps, inputs, r.phase.j, r.world)
    decreases r.phase.j
  {
    hide Finish, Lookup;
    if r.phase.j > 0 {
      Resume(c, r);
      assert r.phase.done[r.phase.j - 1] == inputs[r.phase.j - 1];
      RollbackLeaves(c, Next(c, r), inputs);
    } else {
      RollbackEnds(c, r);
    }
  }

  lemma {:induction false} ForwardEffects<W>(c: Config<W>, r: RunState<W>, world: W)
    requires Fits(c, r) && r.phase.Forward? && |r.rows| == r.phase.i && r.phase.done == Inputs(r.rows)
    requires forall j | 0 <= j < |r.rows| :: RowTrue(c, r.rows, j, world)
    requires r.world == WorldAfter(c.steps, r.rows, |r.rows|, world) && r.phase.input == NextInput(c, r.rows)
    ensures var f := Finish(c, r);
            && |f.rows| <= |c.steps| && (forall j | 0 <= j < |f.rows| :: RowTrue(c, f.rows, j, world))
            && (f.phase.verdict.Completed? ==>
                  |f.rows| == |c.steps| && f.world == WorldAfter(c.steps, f.rows, |f.rows|, world))
            && (f.phase.verdict.InsertFailed? ==>
                  var k := f.phase.verdict.at;
                  && k == |f.rows| < |c.steps|
                  && var before := WorldAfter(c.steps, f.rows, k, world);
                  f.world == if Injected(c, k) then before else c.steps[k].execute(before, NextInput(c, f.rows)).0)
            && (f.phase.verdict.RolledBack? ==>
                  var k := f.phase.verdict.at;
                  && k + 1 == |f.rows| <= |c.steps|
                  && var before := WorldAfter(c.steps, f.rows, k, world);
                  var after := if Injected(c, k) then before else c.steps[k].execute(before, f.rows[k].input).0;
                  f.world == Compensated(c.steps, Inputs(f.rows), k, after))
    decreases Remaining(c, r)
  {
    hide Finish;
    Resume(c, r);
    var n, i := Next(c, r), r.phase.i;
    if n.phase.Ended? {
      AlreadyEnded(c, n);
    } else {
      var row := n.rows[i];
      assert n.rows == r.rows + [row];
      RowsStayTrue(c, r.rows, [row], world);
      WorldAfterPrefix(c.steps, r.rows, [row], i, world);
      assert RowTrue(c, n.rows, i, world);
      if n.phase.Forward? {
        ForwardEffects(c, n, world);
      } else {
        assert Inputs(n.rows)[..i] == n.phase.done by {
          assert forall j | 0 <= j < i :: n.rows[j] == r.rows[j];
        }
        RollbackCalls(c, n, Inputs(n.rows));
        RollbackLeaves(c, n, Inputs(n.rows));
      }
    }
  }

  /**
   * Every row records what its step really returned in the world the earlier steps had made. A
   * completed run leaves the effects of all its steps; one that stops because a step row could
   * not be stored leaves those of the steps so far, and of that step, with nothing undone; and one
   * rolled back at k leaves what the compensations make of the effects of steps 0..k, the failed
   * step's own included.
   */
  lemma RunEffects<W>(c: Config<W>, world: W)
    ensures var f := Finish(c, Start(c, world));
            && |f.rows| <= |c.steps| && (forall j | 0 <= j < |f.rows| :: RowTrue(c, f.rows, j, world))
            && (f.phase.verdict.Completed? ==>
                  |f.rows| == |c.steps| && f.world == WorldAfter(c.steps, f.rows, |f.rows|, world))
            && (f.phase.verdict.InsertFailed? ==>
                  var k := f.phase.verdict.at;
                  && k == |f.rows| < |c.steps|
                  && var before := WorldAfter(c.steps, f.rows, k, world);
                  f.world == if Injected(c, k) then before else c.steps[k].execute(before, NextInput(c, f.rows)).0)
            && (f.phase.verdict.RolledBack? ==>
                  var k := f.phase.verdict.at;
                  && k + 1 == |f.rows| <= |c.steps|
                  && var before := WorldAfter(c.steps, f.rows, k, world);
                  var after := if Injected(c, k) then before else c.steps[k].execute(before, f.rows[k].input).0;
                  f.world == Compensated(c.steps, Inputs(f.rows), k, after))
  {
    ForwardEffects(c, Start(c, world), world);
  }

  // ---------------------------------------------------------------- the verdict, from the inputs alone

  /** What step n is given if every step before it succeeds: the world and its input. None if one does not. */
  function Arrive<W>(c: Config<W>, world: W, n: nat): Option<(W, Payload)>
    requires n <= |c.steps|
  {
    if n == 0 then Some((world, c.input))
    else match Arrive(c, world, n - 1)
      case None => None
      case Some((w, input)) =>
        if ShouldFailStep(c.failStep, c.input, c.steps[n - 1].name) then None
        else match c.steps[n - 1].execute(w, input)
          case (w', Some(output)) => Some((w', output))
          case (_, None) => None
  }

  predicate RowsStored<W>(c: Config<W>, n: nat) {
    forall j | 0 <= j < n :: c.insertOk(j)
  }

  /** The steps before k succeed and are stored, and the row of step k, whatever became of it, is not. */
  predicate StopsUnstored<W>(c: Config<W>, world: W, k: nat)
    requires k < |c.steps|
  {
    RowsStored(c, k) && !c.insertOk(k) && Arrive(c, world, k).Some?
  }

  /** The steps before k succeed, step k fails, and all of them are stored. */
  predicate FailsStored<W>(c: Config<W>, world: W, k: nat)
    requires k < |c.steps|
  {
    RowsStored(c, k + 1) && Arrive(c, world, k).Some? && Arrive(c, world, k + 1).None?
  }

  lemma {:induction false} ForwardVerdict<W>(c: Config<W>, r: RunState<W>, world: W)
    requires Fits(c, r) && r.phase.Forward? && RowsStored(c, r.phase.i)
    requires Arrive(c, world, r.phase.i) == Some((r.world, r.phase.input))
    ensures match Finish(c, r).phase.verdict
            case Completed => RowsStored(c, |c.steps|) && Arrive(c, world, |c.steps|).Some?
            case RolledBack(k) => k < |c.steps| && FailsStored(c, world, k)
            case InsertFailed(k) => k < |c.steps| && StopsUnstored(c, world, k)
    decreases Remaining(c, r)
  {
    hide Finish;
    var n := Next(c, r);
    Resume(c, r);
    match n.phase
    case Forward(_, _, _) => ForwardVerdict(c, n, world);
    case Rollback(_, _, _) => VerdictOfRollback(c, n);
    case Ended(_) => AlreadyEnded(c, n);
  }

  lemma {:induction false} ArrivedEarlier<W>(c: Config<W>, world: W, k: nat, n: nat)
    requires k <= n <= |c.steps| && Arrive(c, world, n).Some?
    ensures Arrive(c, world, k).Some?
  {
    if k < n { ArrivedEarlier(c, world, k, n - 1); }
  }

  /**
   * Which of the three ways a run ends is settled by its inputs: it completes exactly if all steps
   * succeed and are stored; it is rolled back at k exactly if k is the first step to fail and is
   * stored, like those before it; and it stops without compensating at k exactly if the row of
   * step k is the first that cannot be stored and no step before k fails.
   */
  lemma VerdictExactly<W>(c: Config<W>, world: W)
    ensures var v := Finish(c, Start(c, world)).phase.verdict;
            && (v == Completed <==> RowsStored(c, |c.steps|) && Arrive(c, world, |c.steps|).Some?)
            && (forall k: nat :: v == RolledBack(k) <==> k < |c.steps| && FailsStored(c, world, k))
            && (forall k: nat :: v == InsertFailed(k) <==> k < |c.steps| && StopsUnstored(c, world, k))
  {
    hide Finish, Next, Arrive;
    ArriveStart(c, world);
    ForwardVerdict(c, Start(c, world), world);
    forall j: nat, k: nat | j <= k <= |c.steps|
      ensures Arrive(c, world, k).Some? ==> Arrive(c, world, j).Some?
    {
      if Arrive(c, world, k).Some? { ArrivedEarlier(c, world, j, k); }
    }
  }

  /**
   * A step that the run reaches is executed exactly if it is named neither by the engine's injected
   * failure nor by the workflow's own input; one that is named fails without being executed.
   */
  lemma ExecutedExactlyUnlessInjected<W>(c: Config<W>, world: W, k: nat)
    requires k < |c.steps| && RowsStored(c, k) && Arrive(c, world, k).Some?
    ensures var f := Finish(c, Start(c, world));
            && ((exists input :: Execute(k, input) in f.calls) <==>
                c.failStep != c.steps[k].name && c.input.demoFailStep != Some(c.steps[k].name))
            && (c.insertOk(k) && (c.failStep == c.steps[k].name || c.input.demoFailStep == Some(c.steps[k].name)) ==>
                  f.phase.verdict == RolledBack(k))
  {
    hide Finish, Next, RollbackByName;
    var f := Finish(c, Start(c, world));
    VerdictExactly(c, world);
    RunOutcome(c, world);
    StopsNoEarlier(c, world, k);
    var n := if f.phase.verdict.Completed? then |c.steps| else f.phase.verdict.at;
    assert f.calls[..n] == Executions(f.rows, n);
    if k < n {
      ArrivedEarlier(c, world, k + 1, n);
      assert f.calls[k] == Execute(k, f.rows[k].input);
    } else {
      var last := LastCall(c, k, if f.phase.verdict.RolledBack? then f.rows[k].input else NextInput(c, f.rows));
      LaterCalls(c, f, k);
      if last != [] { assert f.calls[k] == last[0]; }
    }
  }

  /** A run that reaches step k stops nowhere before it. */
  lemma StopsNoEarlier<W>(c: Config<W>, world: W, k: nat)
    requires k < |c.steps| && RowsStored(c, k) && Arrive(c, world, k).Some?
    ensures var v := Finish(c, Start(c, world)).phase.verdict; v.Completed? || k <= v.at < |c.steps|
  {
    hide Finish, Next, Arrive;
    VerdictExactly(c, world);
    var v := Finish(c, Start(c, world)).phase.verdict;
    if !v.Completed? && v.at < k {
      ArrivedEarlier(c, world, v.at + 1, k);
    }
  }

  /** A run that stops at k executes nothing after its one call of step k, if it makes that. */
  lemma LaterCalls<W>(c: Config<W>, f: RunState<W>, k: nat)
    requires f.phase.Ended? && Outcome(c, f) && k < |c.steps| && f.phase.verdict in {RolledBack(k), InsertFailed(k)}
    ensures forall i | 0 <= i < |f.calls| && f.calls[i].Execute? && f.calls[i].pos == k :: i == k && !Injected(c, k)
    ensures !Injected(c, k) ==> k < |f.calls| && f.calls[k].Execute? && f.calls[k].pos == k
  {
    hide RollbackByName, StepLog;
    var first := Executions(f.rows, k);
    if f.phase.verdict == RolledBack(k) {
      var rest := RollbackByName(c.steps, Inputs(f.rows), k);
      forall q | 0 <= q < |rest| ensures rest[q].Compensate? { RollbackCompensates(c.steps, Inputs(f.rows), k, q); }
    }
  }

  lemma {:induction false} RollbackCompensates<W>(steps: seq<StepDefinition<W>>, inputs: seq<Payload>, k: nat, q: nat)
    requires k <= |inputs| && k <= |steps| && q < |RollbackByName(steps, inputs, k)|
    ensures RollbackByName(steps, inputs, k)[q].Compensate?
  {
    var here := ByName(steps, k - 1, inputs[k - 1]);
    if q >= |here| { RollbackCompensates(steps, inputs, k - 1, q - |here|); }
  }

  lemma ArriveStart<W>(c: Config<W>, world: W)
    ensures Arrive(c, world, 0) == Some((world, c.input))
  {
  }

  /**
   * So a run may fail without compensating: here the second row is not stored, and the effects of
   * both steps stay, although each has a compensation that would undo it.
   */
  lemma UnstoredStepLeavesEffects()
    ensures var p := Payload("", None);
            var c := Config("id", [Adding("a", 1), Adding("b", 1)], p, "", (i: nat) => i == 0);
            var f := Finish(c, Start(c, 0));
            && DistinctNames(c.steps)
            && (forall j | 0 <= j < |c.steps| :: Reversible(c.steps[j]) && FailsCleanly(c.steps[j]))
            && f.phase.verdict == InsertFailed(1) && f.world == 2 && f.calls == [Execute(0, p), Execute(1, p)]
  {
    var p := Payload("", None);
    var c := Config("id", [Adding("a", 1), Adding("b", 1)], p, "", (i: nat) => i == 0);
    var r1 := Next(c, Start(c, 0));
    var r2 := Next(c, r1);
    assert r2.phase == Ended(InsertFailed(1)) && Finish(c, r2) == r2;
    assert Finish(c, r1) == r2;
  }

  // ---------------------------------------------------------------- undo

  /** Whatever the step completes, its compensation undoes on the step's own input. */
  ghost predicate Reversible<W(!new)>(s: StepDefinition<W>) {
    && s.compensation.Some?
    && forall w: W, p: Payload ::
         var (w', output) := s.execute(w, p);
         output.Some? ==> s.compensation.value(w', p).0 == w
  }

  lemma Inverts<W(!new)>(s: StepDefinition<W>, w: W, p: Payload)
    requires Reversible(s) && s.execute(w, p).1.Some?
    ensures s.compensation.value(s.execute(w, p).0, p).0 == w
  {
  }

  ghost predicate FailsCleanly<W(!new)>(s: StepDefinition<W>) {
    forall w: W, p: Payload :: s.execute(w, p).1.None? ==> s.execute(w, p).0 == w
  }

  /** The world after compensating steps |done|-1..0, each by its own function. */
  function Unwound<W>(steps: seq<StepDefinition<W>>, done: seq<Payload>, world: W): W
    requires |done| <= |steps|
    requires forall j | 0 <= j < |done| :: steps[j].compensation.Some?
    decreases |done|
  {
    if done == [] then world else
      var j := |done| - 1;
      Unwound(steps, done[..j], steps[j].compensation.value(world, done[j]).0)
  }

  lemma {:induction false} RollbackUnwinds<W>(c: Config<W>, r: RunState<W>)
    requires Fits(c, r) && r.phase.Rollback? && OwnNames(c.steps, r.phase.at)
    requires forall j | 0 <= j < r.phase.at :: c.steps[j].compensation.Some?
    ensures Finish(c, r).world == Unwound(c.steps, r.phase.done[..r.phase.j], r.world)
    decreases r.phase.j
  {
    var n := Next(c, r);
    var j, done := r.phase.j, r.phase.done;
    if j > 0 {
      assert OwnsName(c.steps, j - 1);
      RollbackUnwinds(c, n);
      assert done[..j][..j - 1] == done[..j - 1];
    } else {
      assert Finish(c, n) == n;
    }
  }

  lemma {:induction false} ForwardUndo<W(!new)>(c: Config<W>, r: RunState<W>, origin: W, k: nat)
    requires Fits(c, r) && r.phase.Forward?
    requires Finish(c, r).phase.verdict == RolledBack(k)
    requires k < |c.steps| && OwnNames(c.steps, k) && r.phase.i <= k && FailsCleanly(c.steps[k])
    requires forall j | 0 <= j < k :: Reversible(c.steps[j])
    requires forall j | 0 <= j < |r.phase.done| :: c.steps[j].compensation.Some?
    requires Unwound(c.steps, r.phase.done, r.world) == origin
    ensures Finish(c, r).world == origin
    decreases Remaining(c, r)
  {
    var i, done, input := r.phase.i, r.phase.done, r.phase.input;
    var n := Next(c, r);
    if n.phase.Forward? {
      if i == k { VerdictBound(c, n); assert false; }
      assert (done + [input])[..i] == done;
      Inverts(c.steps[i], r.world, input);
      ForwardUndo(c, n, origin, k);
    } else if n.phase.Rollback? {
      VerdictOfRollback(c, n);
      assert done[..i] == done;
      RollbackUnwinds(c, n);
    }
  }

  lemma {:induction false} VerdictOfRollback<W>(c: Config<W>, r: RunState<W>)
    requires Fits(c, r) && r.phase.Rollback?
    ensures Finish(c, r).phase == Ended(RolledBack(r.phase.at))
    decreases r.phase.j
  {
    if r.phase.j > 0 { VerdictOfRollback(c, Next(c, r)); }
    else { assert Finish(c, Next(c, r)) == Next(c, r); }
  }

  /** A run that is about to begin step i cannot be rolled back at an earlier one. */
  lemma {:induction false} VerdictBound<W>(c: Config<W>, r: RunState<W>)
    requires Fits(c, r) && r.phase.Forward?
    ensures var v := Finish(c, r).phase.verdict; v.RolledBack? ==> r.phase.i <= v.at < |c.steps|
    decreases Remaining(c, r)
  {
    var n := Next(c, r);
    if n.phase.Forward? { VerdictBound(c, n); }
    else if n.phase.Rollback? { VerdictOfRollback(c, n); }
    else { assert Finish(c, n) == n; }
  }

  /** A run rolled back at a step leaves the world as it found it, if the steps before own their names. */
  lemma SagaUndo<W(!new)>(c: Config<W>, world: W, k: nat)
    requires Finish(c, Start(c, world)).phase.verdict == RolledBack(k)
    requires k < |c.steps| && OwnNames(c.steps, k) && FailsCleanly(c.steps[k])
    requires forall j | 0 <= j < k :: Reversible(c.steps[j])
    ensures Finish(c, Start(c, world)).world == world
  {
    ForwardUndo(c, Start(c, world), world, k);
  }
}
