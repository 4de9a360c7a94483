/**
 * The workflows table as a run writes it. A run issues its updates from the copy of the row it
 * read before it had the lock; any of them may be dropped.
 */
module WorkflowRows {
  import opened Prelude
  import opened Saga

  datatype Status = Pending | Running | Completed | Compensating | Failed

  datatype Workflow = Workflow(
    id: string, name: string, status: Status, input: Payload, currentStep: string, completedAt: Option<int>)

  /** The columns no update touches. */
  predicate SameWork(a: Workflow, b: Workflow) {
    a.id == b.id && a.name == b.name && a.input == b.input
  }

  /** UPDATE workflows SET status, current_step, completed_at WHERE id. */
  function Write(row: Workflow, w: Workflow): Workflow {
    row.(status := w.status, currentStep := w.currentStep, completedAt := w.completedAt)
  }

  /** The row after the surviving ones among `updates` have been written to it, the k-th if `ok(k)`. */
  function Persisted(row: Workflow, updates: seq<Workflow>, ok: nat -> bool): Workflow {
    if updates == [] then row
    else if ok(|updates| - 1) then Write(row, updates[|updates| - 1])
    else Persisted(row, updates[..|updates| - 1], ok)
  }

  /** The statuses that reach the row, in order. */
  function StatusLog(updates: seq<Workflow>, ok: nat -> bool): seq<Status> {
    if updates == [] then [] else
      StatusLog(updates[..|updates| - 1], ok)
      + (if ok(|updates| - 1) then [updates[|updates| - 1].status] else [])
  }

  /** What the engine's copy of the row is after it has announced its first n steps. */
  function Announced<W>(c: Config<W>, seen: Workflow, n: nat): Workflow
    requires n <= |c.steps|
  {
    seen.(status := Running, currentStep := if n == 0 then seen.currentStep else c.steps[n - 1].name)
  }

  function Announcements<W>(c: Config<W>, seen: Workflow, n: nat): seq<Workflow>
    requires n <= |c.steps|
  {
    seq(n + 1, j requires 0 <= j <= n => Announced(c, seen, j))
  }

  /** All updates a run issues, given where it ended and when. */
  function Updates<W>(c: Config<W>, seen: Workflow, v: Verdict, now: int): seq<Workflow>
    requires v.Completed? || v.at < |c.steps|
  {
    match v
    case Completed =>
      var n := |c.steps|;
      Announcements(c, seen, n) + [Announced(c, seen, n).(status := Status.Completed, completedAt := Some(now))]
    case RolledBack(k) =>
      var last := Announced(c, seen, k + 1);
      Announcements(c, seen, k + 1) + [last.(status := Compensating)] + [last.(status := Failed)]
    case InsertFailed(k) =>
      Announcements(c, seen, k + 1)
  }

  // ---------------------------------------------------------------- the status machine

  /** Running, then completed, or compensating and then failed. */
  predicate MayFollow(a: Status, b: Status) {
    || a == Running
    || (a == Compensating && b == Failed)
  }

  ghost predicate Ordered(log: seq<Status>) {
    && Pending !in log
    && forall i, j | 0 <= i < j < |log| :: MayFollow(log[i], log[j])
  }

  lemma {:induction false} LogOrdered(updates: seq<Workflow>, ok: nat -> bool)
    requires Ordered(seq(|updates|, j requires 0 <= j < |updates| => updates[j].status))
    ensures Ordered(StatusLog(updates, ok))
    ensures forall s | s in StatusLog(updates, ok) :: exists j | 0 <= j < |updates| :: updates[j].status == s
  {
    if updates != [] {
      var n := |updates| - 1;
      var init := updates[..n];
      var statuses := seq(|updates|, j requires 0 <= j < |updates| => updates[j].status);
      var before := seq(n, j requires 0 <= j < n => init[j].status);
      assert before == statuses[..n];
      LogOrdered(init, ok);
      forall s | s in StatusLog(init, ok) ensures MayFollow(s, updates[n].status) {
        var j :| 0 <= j < n && init[j].status == s;
        assert statuses[j] == s && statuses[n] == updates[n].status;
      }
      assert statuses[n] == updates[n].status;
    }
  }

  /**
   * Whatever subset of its updates is dropped, the statuses a run persists are a subsequence of
   * running, then completed, or compensating and failed.
   */
  lemma StatusesInOrder<W>(c: Config<W>, seen: Workflow, v: Verdict, now: int, ok: nat -> bool)
    requires v.Completed? || v.at < |c.steps|
    ensures Ordered(StatusLog(Updates(c, seen, v, now), ok))
  {
    LogOrdered(Updates(c, seen, v, now), ok);
  }

  /** What the j-th update of a run says of the status, told from how the run ends. */
  function StatusAt<W>(c: Config<W>, v: Verdict, j: nat): Status {
    match v
    case Completed => if j <= |c.steps| then Running else Status.Completed
    case RolledBack(k) => if j <= k + 1 then Running else if j == k + 2 then Compensating else Failed
    case InsertFailed(_) => Running
  }

  /** And of the current step: that of the step it announces, or else of the last one announced. */
  function StepAt<W>(c: Config<W>, seen: Workflow, v: Verdict, j: nat): string
    requires v.Completed? || v.at < |c.steps|
  {
    var last := if v.Completed? then |c.steps| else v.at + 1;
    if j == 0 || last == 0 then seen.currentStep
    else if j <= last then c.steps[j - 1].name
    else c.steps[last - 1].name
  }

  /** Number j is the last of the first n that is ok. */
  predicate IsLast(ok: nat -> bool, n: nat, j: nat) {
    j < n && ok(j) && forall i | j < i < n :: !ok(i)
  }

  /**
   * The row a run leaves of the one it finds: what the last update that went through says, on the
   * id, name and input found, or the row found if none did. With none dropped the current step is
   * the last one if the run completes, and the one it stopped at if not.
   */
  ghost predicate RowFollows<W>(c: Config<W>, seen: Workflow, cur: Workflow, v: Verdict, now: int, ok: nat -> bool,
                                row: Workflow)
    requires v.Completed? || v.at < |c.steps|
  {
    var n := UpdateCount(c, v);
    && (!Any(ok, n) ==> row == cur)
    && (forall j: nat | IsLast(ok, n, j) ::
          row == Workflow(cur.id, cur.name, StatusAt(c, v, j), cur.input, StepAt(c, seen, v, j),
                          if v.Completed? && j == n - 1 then Some(now) else seen.completedAt))
    && ((forall j: nat :: ok(j)) ==>
          match v
          case Completed =>
            && row.status == Status.Completed && row.completedAt == Some(now)
            && row.currentStep == if c.steps == [] then seen.currentStep else c.steps[|c.steps| - 1].name
          case RolledBack(k) => row.status == Failed && row.currentStep == c.steps[k].name
          case InsertFailed(k) => row.status == Running && row.currentStep == c.steps[k].name)
  }

  /** The statuses a run persists: those of the updates that go through, each in its turn. */
  ghost predicate LogFollows<W>(c: Config<W>, v: Verdict, ok: nat -> bool, log: seq<Status>) {
    var n := UpdateCount(c, v);
    && |log| == CountOk(ok, n)
    && forall j: nat | j < n && ok(j) :: CountOk(ok, j) < |log| && log[CountOk(ok, j)] == StatusAt(c, v, j)
  }

  lemma UpdatesSay<W>(c: Config<W>, seen: Workflow, v: Verdict, now: int)
    requires v.Completed? || v.at < |c.steps|
    ensures var us := Updates(c, seen, v, now);
            && |us| == UpdateCount(c, v)
            && forall j: nat | j < |us| ::
                 && us[j].status == StatusAt(c, v, j) && us[j].currentStep == StepAt(c, seen, v, j)
                 && us[j].completedAt == if v.Completed? && j == |us| - 1 then Some(now) else seen.completedAt
  {
  }

  lemma RowLeft<W>(c: Config<W>, seen: Workflow, cur: Workflow, v: Verdict, now: int, ok: nat -> bool)
    requires v.Completed? || v.at < |c.steps|
    ensures RowFollows(c, seen, cur, v, now, ok, Persisted(cur, Updates(c, seen, v, now), ok))
  {
    hide Updates, StatusAt, StepAt;
    var us := Updates(c, seen, v, now);
    UpdatesSay(c, seen, v, now);
    PersistedIsRowOrUpdate(cur, us, ok);
    forall j: nat | IsLast(ok, |us|, j) ensures Persisted(cur, us, ok) == Write(cur, us[j]) {
      LastPersists(cur, us, ok, j);
    }
    if forall j: nat :: ok(j) {
      assert IsLast(ok, |us|, |us| - 1);
      LastSays(c, seen, v);
    }
  }

  lemma LastSays<W>(c: Config<W>, seen: Workflow, v: Verdict)
    requires v.Completed? || v.at < |c.steps|
    ensures var j := UpdateCount(c, v) - 1;
            match v
            case Completed =>
              && StatusAt(c, v, j) == Status.Completed
              && StepAt(c, seen, v, j) == if c.steps == [] then seen.currentStep else c.steps[|c.steps| - 1].name
            case RolledBack(k) => StatusAt(c, v, j) == Failed && StepAt(c, seen, v, j) == c.steps[k].name
            case InsertFailed(k) => StatusAt(c, v, j) == Running && StepAt(c, seen, v, j) == c.steps[k].name
  {
  }

  lemma {:induction false} LastPersists(cur: Workflow, us: seq<Workflow>, ok: nat -> bool, j: nat)
    requires IsLast(ok, |us|, j)
    ensures Persisted(cur, us, ok) == Write(cur, us[j])
  {
    if j < |us| - 1 { LastPersists(cur, us[..|us| - 1], ok, j); }
  }

  lemma {:induction false} LogCounts(us: seq<Workflow>, ok: nat -> bool)
    ensures var log := StatusLog(us, ok);
            && |log| == CountOk(ok, |us|)
            && forall j: nat | j < |us| && ok(j) :: CountOk(ok, j) < |log| && log[CountOk(ok, j)] == us[j].status
  {
    if us != [] { LogCounts(us[..|us| - 1], ok); }
  }

  lemma LogLeft<W>(c: Config<W>, seen: Workflow, v: Verdict, now: int, ok: nat -> bool)
    requires v.Completed? || v.at < |c.steps|
    ensures LogFollows(c, v, ok, StatusLog(Updates(c, seen, v, now), ok))
  {
    hide Updates, StatusAt, StepAt, StatusLog, CountOk;
    UpdatesSay(c, seen, v, now);
    LogCounts(Updates(c, seen, v, now), ok);
  }

  // ---------------------------------------------------------------- the completion time

  predicate Any(ok: nat -> bool, n: nat) {
    exists j | 0 <= j < n :: ok(j)
  }

  lemma {:induction false} PersistedIsRowOrUpdate(row: Workflow, updates: seq<Workflow>, ok: nat -> bool)
    ensures if Any(ok, |updates|)
            then exists j | 0 <= j < |updates| :: ok(j) && Persisted(row, updates, ok) == Write(row, updates[j])
            else Persisted(row, updates, ok) == row
  {
    if updates != [] {
      var n := |updates| - 1;
      if !ok(n) {
        PersistedIsRowOrUpdate(row, updates[..n], ok);
        if Any(ok, n) {
          var j :| 0 <= j < n && ok(j) && Persisted(row, updates[..n], ok) == Write(row, updates[..n][j]);
          assert updates[..n][j] == updates[j];
        }
      }
    }
  }

  /** A row shows a completion time only as completed. */
  predicate Coherent(row: Workflow) {
    row.completedAt.Some? ==> row.status.Completed?
  }

  /** The run's last update went through and says completed. */
  predicate Marks<W>(c: Config<W>, v: Verdict, ok: nat -> bool) {
    v.Completed? && ok(|c.steps| + 1)
  }

  /** How many updates a run issues. */
  function UpdateCount<W>(c: Config<W>, v: Verdict): nat {
    match v
    case Completed => |c.steps| + 2
    case RolledBack(k) => k + 4
    case InsertFailed(k) => k + 2
  }

  lemma RowAfterRun<W>(c: Config<W>, seen: Workflow, cur: Workflow, v: Verdict, now: int, ok: nat -> bool)
    requires v.Completed? || v.at < |c.steps|
    ensures var row := Persisted(cur, Updates(c, seen, v, now), ok);
            && SameWork(row, cur)
            && row.completedAt == (if Marks(c, v, ok) then Some(now)
                                   else if Any(ok, UpdateCount(c, v)) then seen.completedAt
                                   else cur.completedAt)
            && (row.status.Completed? <==>
                  Marks(c, v, ok) || (!Any(ok, UpdateCount(c, v)) && cur.status.Completed?))
  {
    var updates := Updates(c, seen, v, now);
    PersistedIsRowOrUpdate(cur, updates, ok);
    assert forall j | 0 <= j < |updates| ::
      updates[j].completedAt == if v.Completed? && j == |updates| - 1 then Some(now) else seen.completedAt;
    assert forall j | 0 <= j < |updates| :: updates[j].status.Completed? <==> v.Completed? && j == |updates| - 1;
  }

  /**
   * A run that read `seen` and found `cur` under its lock leaves id, name and input alone. The
   * completion time it found survives exactly if it issued no update that went through, or the
   * one that marks completion gives the same time, or without that one it had read that very
   * value. In particular a completed row read as unfinished loses its time to the first update.
   */
  lemma CompletedAtSurvivesExactly<W>(c: Config<W>, seen: Workflow, cur: Workflow, v: Verdict, now: int,
                                      ok: nat -> bool)
    requires v.Completed? || v.at < |c.steps|
    ensures var row := Persisted(cur, Updates(c, seen, v, now), ok);
            && SameWork(row, cur)
            && (row.completedAt == cur.completedAt <==>
                  || !Any(ok, UpdateCount(c, v))
                  || (if Marks(c, v, ok) then cur.completedAt == Some(now) else seen.completedAt == cur.completedAt))
            && (cur.completedAt.Some? && row.completedAt.None? <==>
                  cur.completedAt.Some? && seen.completedAt.None? && Any(ok, UpdateCount(c, v)) && !Marks(c, v, ok))
  {
    RowAfterRun(c, seen, cur, v, now, ok);
  }

  /**
   * The row shows a completion time only as completed exactly if the completing update went
   * through, or some update did and the run had read no completion time, or none did and it was
   * so before. With no update dropped: exactly if the run completed or had read no completion time.
   */
  lemma CompletedAtOnlyWithCompletedExactly<W>(c: Config<W>, seen: Workflow, cur: Workflow, v: Verdict, now: int,
                                               ok: nat -> bool)
    requires v.Completed? || v.at < |c.steps|
    ensures var row := Persisted(cur, Updates(c, seen, v, now), ok);
            && (Coherent(row) <==>
                  || Marks(c, v, ok)
                  || (if Any(ok, UpdateCount(c, v)) then seen.completedAt.None? else Coherent(cur)))
            && ((forall j: nat :: ok(j)) ==> (Coherent(row) <==> v.Completed? || seen.completedAt.None?))
  {
    RowAfterRun(c, seen, cur, v, now, ok);
    if forall j: nat :: ok(j) {
      assert ok(0) && Any(ok, UpdateCount(c, v));
    }
  }

  /** Running a completed workflow again and failing leaves a failed row that says when it completed. */
  lemma RerunLeavesCompletedAt()
    ensures var w := Workflow("w", "n", Status.Completed, Payload("", None), "", Some(1));
            var fails := StepDefinition("s", (w: int, p: Payload) => (w, None), None);
            var c := Config("w", [fails], w.input, "", (i: nat) => true);
            var row := Persisted(w, Updates(c, w, RolledBack(0), 2), (i: nat) => true);
            Finish(c, Start(c, 0)).phase.verdict == RolledBack(0) && row.status == Failed && row.completedAt == Some(1)
  {
    var p := Payload("", None);
    var fails := StepDefinition("s", (w: int, p: Payload) => (w, None), None);
    var c := Config("w", [fails], p, "", (i: nat) => true);
    var r := Next(c, Start(c, 0));
    assert r.phase == Rollback(0, [], 0);
    RollbackEnds(c, r);
    Resume(c, Start(c, 0));
  }

  // ---------------------------------------------------------------- the updates one by one

  /** The updates that go with one iteration of the run's loop, entered at `r` at time `now`. */
  function Issued<W>(c: Config<W>, seen: Workflow, r: RunState<W>, now: int): seq<Workflow>
    requires Fits(c, r) && !r.phase.Ended?
  {
    match r.phase
    case Forward(i, _, _) =>
      if i == |c.steps| then [Announced(c, seen, i).(status := Status.Completed, completedAt := Some(now))]
      else
        var w := Announced(c, seen, i + 1);
        if Next(c, r).phase.Rollback? then [w, w.(status := Compensating)] else [w]
    case Rollback(j, _, at) =>
      if j == 0 then [Announced(c, seen, at + 1).(status := Failed)] else []
  }

  /** The updates a run has issued when it has come to `r`; `end` is when it completed, if it did. */
  function IssuedBy<W>(c: Config<W>, seen: Workflow, r: RunState<W>, end: int): seq<Workflow>
    requires Fits(c, r) && (r.phase.Ended? ==> r.phase.verdict.Completed? || r.phase.verdict.at < |c.steps|)
  {
    match r.phase
    case Forward(i, _, _) => Announcements(c, seen, i)
    case Rollback(_, _, at) =>
      Announcements(c, seen, at + 1) + [Announced(c, seen, at + 1).(status := Compensating)]
    case Ended(v) => Updates(c, seen, v, end)
  }

  /** Iteration by iteration a run issues the updates that `Updates` lists as a whole. */
  lemma IssuedAdvances<W>(c: Config<W>, seen: Workflow, r: RunState<W>, last: int, now: int)
    requires Fits(c, r) && !r.phase.Ended?
    ensures var n := Next(c, r);
            && (n.phase.Ended? ==> n.phase.verdict.Completed? || n.phase.verdict.at < |c.steps|)
            && IssuedBy(c, seen, n, now) == IssuedBy(c, seen, r, last) + Issued(c, seen, r, now)
  {
    if r.phase.Forward? && r.phase.i < |c.steps| {
      var i := r.phase.i;
      assert Announcements(c, seen, i + 1) == Announcements(c, seen, i) + [Announced(c, seen, i + 1)];
    }
  }

  /** Until a run completes, its updates show the completion time it read; then the one it sets. */
  lemma IssuedTimes<W>(c: Config<W>, seen: Workflow, r: RunState<W>, last: int, now: int)
    requires Fits(c, r) && !r.phase.Ended?
    ensures forall u | u in IssuedBy(c, seen, r, last) :: u.completedAt == seen.completedAt
    ensures forall u | u in Issued(c, seen, r, now) ::
              u.completedAt == if u.status.Completed? then Some(now) else seen.completedAt
  {
  }

  /** Writes `issued`, the run's updates from number n on. */
  function WriteAll(row: Workflow, issued: seq<Workflow>, n: nat, ok: nat -> bool): Workflow
    decreases |issued|
  {
    if issued == [] then row
    else WriteAll(if ok(n) then Write(row, issued[0]) else row, issued[1..], n + 1, ok)
  }

  lemma {:induction false} WriteAllPersists(row: Workflow, before: seq<Workflow>, issued: seq<Workflow>,
                                            ok: nat -> bool)
    ensures WriteAll(Persisted(row, before, ok), issued, |before|, ok) == Persisted(row, before + issued, ok)
    decreases |issued|
  {
    if issued == [] {
      assert before + issued == before;
    } else {
      var more := before + [issued[0]];
      assert more[..|before|] == before;
      PersistedKeeps(row, before, ok);
      var p := Persisted(row, before, ok);
      assert Persisted(row, more, ok) == if ok(|before|) then Write(p, issued[0]) else p;
      WriteAllPersists(row, more, issued[1..], ok);
      assert more + issued[1..] == before + issued;
    }
  }

  lemma PersistedKeeps(row: Workflow, updates: seq<Workflow>, ok: nat -> bool)
    ensures SameWork(Persisted(row, updates, ok), row)
  {
    PersistedIsRowOrUpdate(row, updates, ok);
  }

  lemma {:induction false} WriteAllKeeps(row: Workflow, issued: seq<Workflow>, n: nat, ok: nat -> bool)
    ensures SameWork(WriteAll(row, issued, n, ok), row)
    decreases |issued|
  {
    if issued != [] {
      WriteAllKeeps(if ok(n) then Write(row, issued[0]) else row, issued[1..], n + 1, ok);
    }
  }

  /** If all it writes satisfies one of these, so does what it leaves. */
  lemma {:induction false} WriteAllShows(row: Workflow, issued: seq<Workflow>, n: nat, ok: nat -> bool)
    ensures var left := WriteAll(row, issued, n, ok);
            && (row.completedAt.Some? && (forall u | u in issued :: u.completedAt.Some?) ==> left.completedAt.Some?)
            && (Coherent(row) && (forall u | u in issued :: Coherent(u)) ==> Coherent(left))
    decreases |issued|
  {
    if issued != [] {
      assert issued[0] in issued && forall u | u in issued[1..] :: u in issued;
      WriteAllShows(if ok(n) then Write(row, issued[0]) else row, issued[1..], n + 1, ok);
    }
  }
}
