/**
 * Many runs of many workflows at once. A run reads its row, takes a lease with set-if-absent, acts
 * one loop iteration at a time on the world and the row of its own workflow id, and deletes the
 * lease unconditionally. Time may pass and a process may die anywhere in between.
 */
module Serial {
  import opened Prelude
  import opened Redis
  import opened Saga
  import opened WorkflowRows

  /** What runs of one id contend for: the world they act on, and their row. */
  datatype Place<!W> = Place(world: W, row: Workflow)

  /** A run that has read its row and holds no lock. `ok(k)` says whether its k-th update will be stored. */
  datatype Reader<!W> = Reader(c: Config<W>, seen: Workflow, ok: nat -> bool)

  /**
   * A run between lock and unlock: what it read, what it found under the lock, how far it is, the
   * updates it has issued, the time of its last iteration, and when its key expires.
   */
  datatype Holder<!W> = Holder(
    c: Config<W>, seen: Workflow, ok: nat -> bool, before: Place<W>,
    r: RunState<W>, updates: seq<Workflow>, last: int, leaseEnd: int)

  /** A run that unlocked, or died where it was. */
  datatype Past<!W> = Past(run: Holder<W>, crashed: bool)

  datatype Effect = Effect(id: string, calls: seq<Call>)

  datatype State<!W> = State(
    now: int, keys: map<string, int>, places: map<string, Place<W>>,
    readers: map<nat, Reader<W>>, active: map<nat, Holder<W>>, past: seq<Past<W>>, trace: seq<Effect>)

  datatype Action<!W> =
    | Tick(d: nat)
    | Read(run: nat, c: Config<W>, ok: nat -> bool)
    | Acquire(run: nat)
    | GiveUp(run: nat)
    | Advance(run: nat)
    | Release(run: nat, unlockOk: bool)
    | Crash(run: nat)

  ghost predicate Enabled<W>(s: State<W>, a: Action<W>) {
    match a
    case Tick(_) => true
    case Read(run, c, _) =>
      run !in s.readers && run !in s.active && c.id in s.places && c.input == s.places[c.id].row.input
    case Acquire(run) => run in s.readers && run !in s.active && s.readers[run].c.id in s.places
    case GiveUp(run) => run in s.readers
    case Advance(run) =>
      run in s.active && s.active[run].c.id in s.places
      && Fits(s.active[run].c, s.active[run].r) && !s.active[run].r.phase.Ended?
    case Release(run, _) => run in s.active && s.active[run].r.phase.Ended?
    case Crash(run) => run in s.active
  }

  /** The calls one iteration adds. */
  function Added<W>(c: Config<W>, r: RunState<W>): seq<Call>
    requires Fits(c, r) && !r.phase.Ended?
  {
    CallsGrow(c, r);
    Next(c, r).calls[|r.calls|..]
  }

  lemma CallsGrow<W>(c: Config<W>, r: RunState<W>)
    requires Fits(c, r) && !r.phase.Ended?
    ensures |r.calls| <= |Next(c, r).calls| && Next(c, r).calls == r.calls + Next(c, r).calls[|r.calls|..]
  {
  }

  /** A run under its lock: its first update says that it is running. */
  function Begun<W>(q: Reader<W>, found: Place<W>, now: int): Holder<W> {
    Holder(q.c, q.seen, q.ok, found, Start(q.c, found.world), Announcements(q.c, q.seen, 0), now, now + LOCK_TTL)
  }

  /** A run one iteration further, having found `world`. */
  function Moved<W>(a: Holder<W>, world: W, now: int): Holder<W>
    requires Fits(a.c, a.r) && !a.r.phase.Ended?
  {
    var here := a.r.(world := world);
    a.(r := Next(a.c, here), updates := a.updates + Issued(a.c, a.seen, here, now), last := now)
  }

  function Apply<W>(s: State<W>, a: Action<W>): State<W>
    requires Enabled(s, a)
  {
    match a
    case Tick(d) => s.(now := s.now + d)
    case Read(run, c, ok) => s.(readers := s.readers[run := Reader(c, s.places[c.id].row, ok)])
    case Acquire(run) =>
      var q := s.readers[run];
      var rest := s.(readers := s.readers - {run});
      if Held(s.keys, LockKey(q.c.id), s.now) then rest else
        var found := s.places[q.c.id];
        rest.(keys := SetNX(s.keys, LockKey(q.c.id), s.now, LOCK_TTL),
              places := s.places[q.c.id := found.(row := WriteAll(found.row, Announcements(q.c, q.seen, 0), 0, q.ok))],
              active := s.active[run := Begun(q, found, s.now)])
    case GiveUp(run) => s.(readers := s.readers - {run})
    case Advance(run) =>
      var a := s.active[run];
      var found := s.places[a.c.id];
      var here := a.r.(world := found.world);
      var issued := Issued(a.c, a.seen, here, s.now);
      s.(places := s.places[a.c.id := Place(Next(a.c, here).world, WriteAll(found.row, issued, |a.updates|, a.ok))],
         active := s.active[run := Moved(a, found.world, s.now)],
         trace := s.trace + [Effect(a.c.id, Added(a.c, here))])
    case Release(run, unlockOk) =>
      var a := s.active[run];
      s.(keys := if unlockOk then s.keys - {LockKey(a.c.id)} else s.keys,
         active := s.active - {run}, past := s.past + [Past(a, false)])
    case Crash(run) => s.(active := s.active - {run}, past := s.past + [Past(s.active[run], true)])
  }

  ghost predicate Execution<W>(states: seq<State<W>>, actions: seq<Action<W>>) {
    && |states| == |actions| + 1
    && forall i | 0 <= i < |actions| :: Enabled(states[i], actions[i]) && states[i + 1] == Apply(states[i], actions[i])
  }

  ghost predicate Initial<W>(s: State<W>) {
    s.keys == map[] && s.readers == map[] && s.active == map[] && s.past == [] && s.trace == []
  }

  /** No run is still between lock and unlock when its lease ends. */
  ghost predicate Timely<W>(s: State<W>) {
    forall run | run in s.active :: s.now < s.active[run].leaseEnd
  }

  // ---------------------------------------------------------------- one run after the other

  /** Where a past run left its id. */
  function Left<W>(p: Past<W>): Place<W> {
    Place(p.run.r.world, Persisted(p.run.before.row, p.run.updates, p.run.ok))
  }

  /** The runs of `id` in `past`, one after the other, lead from `w` to `w'`. */
  ghost predicate Chain<W>(w: Place<W>, past: seq<Past<W>>, id: string, w': Place<W>) {
    if past == [] then w == w' else
      var last, rest := past[|past| - 1], past[..|past| - 1];
      if last.run.c.id == id then Left(last) == w' && Chain(w, rest, id, last.run.before)
      else Chain(w, rest, id, w')
  }

  /** The calls of the past runs of `id`, run by run. */
  function RunByRun<W>(past: seq<Past<W>>, id: string): seq<Call> {
    if past == [] then [] else
      RunByRun(past[..|past| - 1], id)
      + if past[|past| - 1].run.c.id == id then past[|past| - 1].run.r.calls else []
  }

  /** What the world of `id` was subjected to, in time order. */
  function Project(trace: seq<Effect>, id: string): seq<Call> {
    if trace == [] then [] else
      Project(trace[..|trace| - 1], id)
      + if trace[|trace| - 1].id == id then trace[|trace| - 1].calls else []
  }

  /** The run has come undisturbed from the world it found to `r`, and has issued its updates up to there. */
  ghost predicate OnCourse<W>(a: Holder<W>) {
    && Fits(a.c, a.r)
    && Finish(a.c, a.r) == Finish(a.c, Start(a.c, a.before.world))
    && (a.r.phase.Ended? ==> a.r.phase.verdict.Completed? || a.r.phase.verdict.at < |a.c.steps|)
    && a.updates == IssuedBy(a.c, a.seen, a.r, a.last)
  }

  /** A past run is the whole undisturbed run from the place it found, or stopped somewhere on it. */
  ghost predicate Whole<W>(p: Past<W>) {
    OnCourse(p.run) && (!p.crashed ==> p.run.r == Finish(p.run.c, Start(p.run.c, p.run.before.world)))
  }

  ghost predicate Underway<W>(s: State<W>, a: Holder<W>) {
    && OnCourse(a)
    && a.c.id in s.places && s.places[a.c.id] == Place(a.r.world, Persisted(a.before.row, a.updates, a.ok))
    && LockKey(a.c.id) in s.keys && s.keys[LockKey(a.c.id)] == a.leaseEnd
  }

  ghost predicate Exclusive<W>(s: State<W>) {
    forall r1, r2 | r1 in s.active && r2 in s.active && s.active[r1].c.id == s.active[r2].c.id :: r1 == r2
  }

  /** The past runs of `id` lead from w0 to w, and its trace is theirs followed by `calls`. */
  ghost predicate Accounts<W>(past: seq<Past<W>>, trace: seq<Effect>, id: string, w0: Place<W>, w: Place<W>,
                              calls: seq<Call>)
  {
    Chain(w0, past, id, w) && Project(trace, id) == RunByRun(past, id) + calls
  }

  /** What `id` went through so far is its past runs in sequence, then its one active run if any. */
  ghost predicate InSequence<W>(s: State<W>, w0: Place<W>, id: string)
    requires id in s.places
  {
    && (forall run | On(s, run, id) ::
          Accounts(s.past, s.trace, id, w0, s.active[run].before, s.active[run].r.calls))
    && ((forall run | run in s.active :: !On(s, run, id)) ==> Accounts(s.past, s.trace, id, w0, s.places[id], []))
  }

  predicate On<W>(s: State<W>, run: nat, id: string) {
    run in s.active && s.active[run].c.id == id
  }

  lemma AccountsAdvance<W>(past: seq<Past<W>>, trace: seq<Effect>, id: string, w0: Place<W>, w: Place<W>,
                           calls: seq<Call>, e: Effect)
    requires Accounts(past, trace, id, w0, w, calls)
    ensures Accounts(past, trace + [e], id, w0, w, if e.id == id then calls + e.calls else calls)
  {
    assert (trace + [e])[..|trace|] == trace;
  }

  lemma AccountsLeave<W>(past: seq<Past<W>>, trace: seq<Effect>, id: string, w0: Place<W>, w: Place<W>,
                         calls: seq<Call>, p: Past<W>)
    requires Accounts(past, trace, id, w0, w, calls)
    requires p.run.c.id == id ==> w == p.run.before && calls == p.run.r.calls
    ensures Accounts(past + [p], trace, id, w0,
                     if p.run.c.id == id then Left(p) else w, if p.run.c.id == id then [] else calls)
  {
    assert (past + [p])[..|past|] == past;
  }

  ghost predicate Inv<W>(s: State<W>, places0: map<string, Place<W>>) {
    && s.places.Keys == places0.Keys
    && (forall run | run in s.active :: Underway(s, s.active[run]))
    && Exclusive(s)
    && (forall p | 0 <= p < |s.past| :: Whole(s.past[p]))
    && (forall id | id in places0 :: InSequence(s, places0[id], id))
  }

  lemma BegunOnCourse<W>(q: Reader<W>, found: Place<W>, now: int)
    ensures var a := Begun(q, found, now);
            && OnCourse(a) && a.r.calls == []
            && WriteAll(found.row, Announcements(q.c, q.seen, 0), 0, q.ok) == Persisted(found.row, a.updates, q.ok)
            && a.r.world == found.world
  {
    WriteAllPersists(found.row, [], Announcements(q.c, q.seen, 0), q.ok);
    assert [] + Announcements(q.c, q.seen, 0) == Announcements(q.c, q.seen, 0);
  }

  lemma AcquireKeeps<W>(s: State<W>, run: nat, places0: map<string, Place<W>>)
    requires Inv(s, places0) && Timely(s) && Enabled(s, Acquire(run))
    ensures Inv(Apply(s, Acquire(run)), places0)
  {
    hide OnCourse, Accounts, InSequence, Begun, WriteAll, Persisted;
    var t, q := Apply(s, Acquire(run)), s.readers[run];
    if Held(s.keys, LockKey(q.c.id), s.now) {
      forall id | id in places0 ensures InSequence(t, places0[id], id) {
        SameRuns(s, t, places0[id], id);
      }
    } else {
      BegunKeeps(q, s.places[q.c.id], s.now);
      BegunOnCourse(q, s.places[q.c.id], s.now);
      forall r | r in s.active ensures s.active[r].c.id != q.c.id && Underway(t, s.active[r]) {
        assert Underway(s, s.active[r]);
        KeysAreSeparate(s.active[r].c.id, q.c.id, q.c.id);
      }
      assert Underway(t, t.active[run]);
      forall id | id in places0 ensures InSequence(t, places0[id], id) {
        AcquireInSequence(s, run, places0[id], id);
      }
    }
  }

  lemma BegunKeeps<W>(q: Reader<W>, found: Place<W>, now: int)
    ensures var a := Begun(q, found, now);
            && a.c == q.c && a.ok == q.ok && a.before == found
            && a.leaseEnd == now + LOCK_TTL && a.r.calls == [] && a.last == now
  {
  }

  lemma SameRuns<W>(s: State<W>, t: State<W>, w0: Place<W>, id: string)
    requires id in s.places && t.places == s.places && t.active == s.active && t.past == s.past && t.trace == s.trace
    requires InSequence(s, w0, id)
    ensures InSequence(t, w0, id)
  {
    hide Accounts;
    forall run | On(t, run, id) ensures Accounts(t.past, t.trace, id, w0, t.active[run].before, t.active[run].r.calls) {
      assert On(s, run, id);
    }
    if forall run | run in t.active :: !On(t, run, id) {
      forall run | run in s.active ensures !On(s, run, id) { assert !On(t, run, id); }
    }
  }

  lemma AcquireInSequence<W>(s: State<W>, run: nat, w0: Place<W>, id: string)
    requires Enabled(s, Acquire(run)) && id in s.places && InSequence(s, w0, id)
    requires !Held(s.keys, LockKey(s.readers[run].c.id), s.now)
    requires forall r | r in s.active :: !On(s, r, s.readers[run].c.id)
    ensures InSequence(Apply(s, Acquire(run)), w0, id)
  {
    hide Begun, Accounts, WriteAll;
    var t, q := Apply(s, Acquire(run)), s.readers[run];
    BegunKeeps(q, s.places[q.c.id], s.now);
    assert On(t, run, q.c.id);
    forall r | On(t, r, id) ensures Accounts(t.past, t.trace, id, w0, t.active[r].before, t.active[r].r.calls) {
      if r == run {
        assert forall x | x in s.active :: !On(s, x, id);
      } else {
        assert On(s, r, id);
      }
    }
    if forall r | r in t.active :: !On(t, r, id) {
      assert id != q.c.id;
      forall r | r in s.active ensures !On(s, r, id) { assert !On(t, r, id); }
    }
  }

  lemma MovedOnCourse<W>(a: Holder<W>, now: int)
    requires OnCourse(a) && !a.r.phase.Ended?
    ensures var m := Moved(a, a.r.world, now);
            && OnCourse(m) && m.c == a.c && m.before == a.before && m.ok == a.ok && m.leaseEnd == a.leaseEnd
            && m.r == Next(a.c, a.r)
            && WriteAll(Persisted(a.before.row, a.updates, a.ok), Issued(a.c, a.seen, a.r, now), |a.updates|, a.ok)
               == Persisted(a.before.row, m.updates, a.ok)
  {
    hide Finish, Next, WriteAll, Persisted, IssuedBy, Issued;
    assert a.r.(world := a.r.world) == a.r;
    Resume(a.c, a.r);
    IssuedAdvances(a.c, a.seen, a.r, a.last, now);
    WriteAllPersists(a.before.row, a.updates, Issued(a.c, a.seen, a.r, now), a.ok);
  }

  lemma AdvanceKeeps<W>(s: State<W>, run: nat, places0: map<string, Place<W>>)
    requires Inv(s, places0) && Enabled(s, Advance(run))
    ensures Inv(Apply(s, Advance(run)), places0)
  {
    hide OnCourse, Next, Accounts, InSequence, Moved, WriteAll, Persisted, Issued, Added;
    var t, a := Apply(s, Advance(run)), s.active[run];
    assert Underway(s, a) && a.r.(world := s.places[a.c.id].world) == a.r;
    MovedOnCourse(a, s.now);
    forall r | r in t.active ensures Underway(t, t.active[r]) {
      assert Underway(s, s.active[r]);
    }
    forall id | id in places0 ensures InSequence(t, places0[id], id) {
      AdvanceInSequence(s, run, places0[id], id);
    }
  }

  lemma AdvanceInSequence<W>(s: State<W>, run: nat, w0: Place<W>, id: string)
    requires Enabled(s, Advance(run)) && id in s.places && InSequence(s, w0, id) && Exclusive(s)
    requires Underway(s, s.active[run])
    ensures InSequence(Apply(s, Advance(run)), w0, id)
  {
    hide OnCourse, Next, Accounts, WriteAll, Persisted, Issued;
    var t, a := Apply(s, Advance(run)), s.active[run];
    assert a.r.(world := s.places[a.c.id].world) == a.r;
    CallsGrow(a.c, a.r);
    var e := Effect(a.c.id, Added(a.c, a.r));
    forall r | On(t, r, id)
      ensures Accounts(t.past, t.trace, id, w0, t.active[r].before, t.active[r].r.calls)
    {
      assert On(s, r, id);
      AccountsAdvance(s.past, s.trace, id, w0, s.active[r].before, s.active[r].r.calls, e);
    }
    if forall r | r in t.active :: !On(t, r, id) {
      assert !On(t, run, id);
      forall r | r in s.active ensures !On(s, r, id) { assert !On(t, r, id); }
      AccountsAdvance(s.past, s.trace, id, w0, s.places[id], [], e);
    }
  }

  lemma LeavesWhole<W>(a: Holder<W>, crashed: bool)
    requires OnCourse(a) && (crashed || a.r.phase.Ended?)
    ensures Whole(Past(a, crashed))
  {
    hide Finish, IssuedBy;
    if a.r.phase.Ended? { AlreadyEnded(a.c, a.r); }
  }

  lemma LeaveKeeps<W>(s: State<W>, run: nat, a: Action<W>, places0: map<string, Place<W>>)
    requires Inv(s, places0) && Enabled(s, a)
    requires a == Crash(run) || a == Release(run, true) || a == Release(run, false)
    ensures Inv(Apply(s, a), places0)
  {
    hide OnCourse, Whole, Accounts, InSequence, Persisted;
    var t := Apply(s, a);
    var gone := s.active[run];
    assert Underway(s, gone);
    LeavesWhole(gone, a.Crash?);
    forall p | 0 <= p < |t.past| ensures Whole(t.past[p]) {
      if p < |s.past| { assert Whole(s.past[p]); }
    }
    forall r | r in t.active ensures Underway(t, t.active[r]) {
      assert Underway(s, s.active[r]);
      KeysAreSeparate(s.active[r].c.id, gone.c.id, gone.c.id);
    }
    forall id | id in places0 ensures InSequence(t, places0[id], id) {
      LeaveInSequence(s, run, a, places0[id], id);
    }
  }

  lemma LeaveInSequence<W>(s: State<W>, run: nat, a: Action<W>, w0: Place<W>, id: string)
    requires Enabled(s, a) && id in s.places && InSequence(s, w0, id) && Exclusive(s)
    requires a == Crash(run) || a == Release(run, true) || a == Release(run, false)
    requires Underway(s, s.active[run])
    ensures InSequence(Apply(s, a), w0, id)
  {
    hide OnCourse, Accounts, Persisted;
    var t, gone := Apply(s, a), s.active[run];
    var p := t.past[|s.past|];
    forall r | On(t, r, id)
      ensures Accounts(t.past, t.trace, id, w0, t.active[r].before, t.active[r].r.calls)
    {
      assert On(s, r, id);
      AccountsLeave(s.past, s.trace, id, w0, s.active[r].before, s.active[r].r.calls, p);
    }
    if forall r | r in t.active :: !On(t, r, id) {
      if id == gone.c.id {
        assert On(s, run, id);
        AccountsLeave(s.past, s.trace, id, w0, gone.before, gone.r.calls, p);
      } else {
        forall r | r in s.active ensures !On(s, r, id) { assert r == run || !On(t, r, id); }
        AccountsLeave(s.past, s.trace, id, w0, s.places[id], [], p);
      }
    }
  }

  /** Ticks, reads and abandoned reads touch nothing that runs contend for. */
  lemma AsideKeeps<W>(s: State<W>, a: Action<W>, places0: map<string, Place<W>>)
    requires Inv(s, places0) && Enabled(s, a) && (a.Tick? || a.Read? || a.GiveUp?)
    ensures Inv(Apply(s, a), places0)
  {
    hide OnCourse, Accounts, InSequence, Persisted;
    var t := Apply(s, a);
    forall r | r in t.active ensures Underway(t, t.active[r]) { assert Underway(s, s.active[r]); }
    forall id | id in places0 ensures InSequence(t, places0[id], id) {
      SameRuns(s, t, places0[id], id);
    }
  }

  lemma ApplyKeeps<W>(s: State<W>, a: Action<W>, places0: map<string, Place<W>>)
    requires Inv(s, places0) && Timely(s) && Enabled(s, a)
    ensures Inv(Apply(s, a), places0)
  {
    hide Inv;
    match a
    case Acquire(run) => AcquireKeeps(s, run, places0);
    case Advance(run) => AdvanceKeeps(s, run, places0);
    case Release(run, _) => LeaveKeeps(s, run, a, places0);
    case Crash(run) => LeaveKeeps(s, run, a, places0);
    case _ => AsideKeeps(s, a, places0);
  }

  lemma StartsInSequence<W>(s: State<W>)
    requires Initial(s)
    ensures Inv(s, s.places)
  {
  }

  lemma {:induction false} InvHolds<W>(states: seq<State<W>>, actions: seq<Action<W>>)
    requires Execution(states, actions) && Initial(states[0])
    requires forall i | 0 <= i < |actions| :: Timely(states[i])
    ensures Inv(states[|actions|], states[0].places)
  {
    hide Inv, Initial, Timely, Enabled, Apply;
    if actions == [] {
      StartsInSequence(states[0]);
    } else {
      var n := |actions| - 1;
      InvHolds(states[..n + 1], actions[..n]);
      ApplyKeeps(states[n], actions[n], states[0].places);
    }
  }

  /**
   * If every holder unlocks, or dies, before its lease ends, then at every moment at most one run
   * per id is between lock and unlock; and what an id has been through is the same as its past
   * runs executed one after the other, each undisturbed from the world and row its predecessor
   * left, with the calls of one never interleaved with those of another.
   */
  lemma Serialisable<W>(states: seq<State<W>>, actions: seq<Action<W>>)
    requires Execution(states, actions) && Initial(states[0])
    requires forall i | 0 <= i < |actions| :: Timely(states[i])
    ensures var s, places0 := states[|actions|], states[0].places;
            && Exclusive(s) && s.places.Keys == places0.Keys
            && (forall p | 0 <= p < |s.past| :: Whole(s.past[p]))
            && (forall id | id in places0 :: InSequence(s, places0[id], id))
  {
    InvHolds(states, actions);
  }

  /**
   * So a run rolled back at k undoes itself even among others, if the steps before k are
   * reversible and step k fails cleanly: the chain passes through it with the world unchanged.
   */
  lemma RolledBackRunsLeaveNoTrace<W(!new)>(states: seq<State<W>>, actions: seq<Action<W>>, p: nat, k: nat)
    requires Execution(states, actions) && Initial(states[0])
    requires forall i | 0 <= i < |actions| :: Timely(states[i])
    requires p < |states[|actions|].past| && !states[|actions|].past[p].crashed
    ensures var gone := states[|actions|].past[p];
            var steps := gone.run.c.steps;
            && gone.run.r.phase.Ended?
            && (gone.run.r.phase.verdict == RolledBack(k) ==> k < |steps|)
            && (gone.run.r.phase.verdict == RolledBack(k) && OwnNames(steps, k) && FailsCleanly(steps[k])
                && (forall j | 0 <= j < k :: Reversible(steps[j])) ==>
                  Left(gone).world == gone.run.before.world)
  {
    InvHolds(states, actions);
    var gone := states[|actions|].past[p].run;
    assert Whole(states[|actions|].past[p]);
    var steps := gone.c.steps;
    if gone.r.phase.verdict == RolledBack(k) && OwnNames(steps, k) && FailsCleanly(steps[k])
       && forall j | 0 <= j < k :: Reversible(steps[j])
    {
      SagaUndo(gone.c, gone.before.world, k);
    }
  }

  // ---------------------------------------------------------------- one undisturbed run

  /** The state with the place and the run of `a` moved on to `b`, and `effects` added to the trace. */
  function Reached<W>(s: State<W>, run: nat, b: Holder<W>, effects: seq<Effect>): State<W> {
    s.(places := s.places[b.c.id := Place(b.r.world, Persisted(b.before.row, b.updates, b.ok))],
       active := s.active[run := b], trace := s.trace + effects)
  }

  /** Where a run that stands at `a` gets to undisturbed, while the clock stands still. */
  ghost predicate LeadsTo<W>(a: Holder<W>, b: Holder<W>) {
    && Fits(a.c, a.r) && OnCourse(b) && b.r == Finish(a.c, a.r)
    && b == a.(r := b.r, updates := b.updates)
  }

  lemma AdvanceReaches<W>(s: State<W>, run: nat)
    requires run in s.active && Underway(s, s.active[run]) && !s.active[run].r.phase.Ended?
    ensures Enabled(s, Advance(run))
    ensures var a := s.active[run];
            var m := Moved(a, a.r.world, s.now);
            var t := Apply(s, Advance(run));
            && t == Reached(s, run, m, [Effect(a.c.id, Added(a.c, a.r))]) && Underway(t, m)
  {
    hide Finish, Next, WriteAll, Persisted, Issued, IssuedBy, Added;
    var a := s.active[run];
    assert a.r.(world := a.r.world) == a.r;
    MovedOnCourse(a, s.now);
  }

  /** From wherever a run stands, its iterations are an execution that ends where `Finish` does. */
  lemma {:induction false} AdvancesFinish<W>(s: State<W>, run: nat)
    returns (states: seq<State<W>>, actions: seq<Action<W>>, b: Holder<W>, effects: seq<Effect>)
    requires run in s.active && Underway(s, s.active[run]) && s.active[run].last == s.now
    ensures Execution(states, actions) && states[0] == s
    ensures LeadsTo(s.active[run], b)
    ensures states[|actions|] == Reached(s, run, b, effects)
    decreases Remaining(s.active[run].c, s.active[run].r)
  {
    hide Next, WriteAll, Persisted, Issued, IssuedBy, Added, Enabled, Apply;
    var a := s.active[run];
    if a.r.phase.Ended? {
      AlreadyEnded(a.c, a.r);
      states, actions, b, effects := [s], [], a, [];
      assert s.trace + [] == s.trace;
      assert s.places[a.c.id := s.places[a.c.id]] == s.places && s.active[run := a] == s.active;
    } else {
      AdvanceReaches(s, run);
      NextCloser(a.c, a.r);
      var m, here := Moved(a, a.r.world, s.now), [Effect(a.c.id, Added(a.c, a.r))];
      var t := Apply(s, Advance(run));
      var rest, more, last, later := AdvancesFinish(t, run);
      states, actions, b, effects := [s] + rest, [Advance(run)] + more, last, here + later;
    }
  }

  /** The place a whole run from `q` at time `now` makes of the one it finds. */
  ghost predicate RunsTo<W>(q: Reader<W>, found: Place<W>, now: int, left: Place<W>) {
    var f := Finish(q.c, Start(q.c, found.world));
    && (f.phase.verdict.Completed? || f.phase.verdict.at < |q.c.steps|)
    && left == Place(f.world, Persisted(found.row, Updates(q.c, q.seen, f.phase.verdict, now), q.ok))
  }

  /**
   * A run that gets the lock and goes on with nothing in between is an execution: it leaves the
   * whole run's place, the clock as it was, and the keys without its own, or with it if the
   * delete fails; and no other place, reader or holder is touched.
   */
  lemma UndisturbedRunIsExecution<W>(s: State<W>, run: nat, unlockOk: bool)
    returns (states: seq<State<W>>, actions: seq<Action<W>>)
    requires Enabled(s, Acquire(run)) && !Held(s.keys, LockKey(s.readers[run].c.id), s.now)
    ensures Execution(states, actions) && states[0] == s
    ensures var q, t := s.readers[run], states[|actions|];
            && t.now == s.now && t.active == s.active && t.readers == s.readers - {run}
            && t.places.Keys == s.places.Keys
            && RunsTo(q, s.places[q.c.id], s.now, t.places[q.c.id])
            && (forall id | id in s.places && id != q.c.id :: t.places[id] == s.places[id])
            && t.keys == (var held := SetNX(s.keys, LockKey(q.c.id), s.now, LOCK_TTL);
                          if unlockOk then held - {LockKey(q.c.id)} else held)
  {
    hide Finish, Next, WriteAll, Persisted, Begun, Moved, OnCourse;
    var q := s.readers[run];
    var found := s.places[q.c.id];
    BegunKeeps(q, found, s.now);
    BegunOnCourse(q, found, s.now);
    var t := Apply(s, Acquire(run));
    var rest, more, b, effects := AdvancesFinish(t, run);
    var last := Reached(t, run, b, effects);
    EndsWhole(q, found, s.now, b);
    var gone := Apply(last, Release(run, unlockOk));
    states, actions := [s] + rest + [gone], [Acquire(run)] + more + [Release(run, unlockOk)];
    OneBeforeOneAfter(s, Acquire(run), rest, more, Release(run, unlockOk));
    assert gone.active == s.active;
  }

  lemma EndsWhole<W>(q: Reader<W>, found: Place<W>, now: int, b: Holder<W>)
    requires LeadsTo(Begun(q, found, now), b)
    ensures b.r.phase.Ended? && b.c == q.c && b.leaseEnd == now + LOCK_TTL
    ensures RunsTo(q, found, now, Place(b.r.world, Persisted(b.before.row, b.updates, b.ok)))
  {
    hide Persisted;
  }

  lemma OneBeforeOneAfter<W>(s: State<W>, first: Action<W>, states: seq<State<W>>, actions: seq<Action<W>>,
                             last: Action<W>)
    requires Enabled(s, first) && Execution(states, actions) && states[0] == Apply(s, first)
    requires Enabled(states[|actions|], last)
    ensures Execution([s] + states + [Apply(states[|actions|], last)], [first] + actions + [last])
  {
    hide Enabled, Apply;
    var all, acts := [s] + states + [Apply(states[|actions|], last)], [first] + actions + [last];
    forall i | 0 <= i < |acts| ensures Enabled(all[i], acts[i]) && all[i + 1] == Apply(all[i], acts[i]) {
      if 0 < i <= |actions| {
        assert all[i] == states[i - 1] && all[i + 1] == states[i] && acts[i] == actions[i - 1];
      }
    }
  }

  // ---------------------------------------------------------------- rows

  /** A run working on c with the copy `seen` works on the id, name and input its row still has. */
  predicate Knows<W>(s: State<W>, c: Config<W>, seen: Workflow) {
    c.id in s.places && c.input == s.places[c.id].row.input && SameWork(seen, s.places[c.id].row)
  }

  ghost predicate WellRead<W>(s: State<W>) {
    && (forall run | run in s.readers :: Knows(s, s.readers[run].c, s.readers[run].seen))
    && (forall run | run in s.active :: Knows(s, s.active[run].c, s.active[run].seen))
  }

  ghost predicate RowsKept<W>(s: State<W>, t: State<W>) {
    s.places.Keys == t.places.Keys && forall id | id in s.places :: SameWork(s.places[id].row, t.places[id].row)
  }

  /** Only the place of `id` changes, and that keeps what no update touches. */
  ghost predicate RowOfKept<W>(s: State<W>, t: State<W>, id: string) {
    && id in s.places && s.places.Keys == t.places.Keys
    && (forall x | x in s.places && x != id :: t.places[x] == s.places[x])
    && SameWork(s.places[id].row, t.places[id].row)
  }

  lemma ApplyKeepsRow<W>(s: State<W>, a: Action<W>)
    requires Enabled(s, a) && (a.Acquire? || a.Advance?)
    ensures RowOfKept(s, Apply(s, a), if a.Acquire? then s.readers[a.run].c.id else s.active[a.run].c.id)
  {
    hide Next, WriteAll, Issued, Added, Begun, Moved;
    if a.Acquire? {
      var q := s.readers[a.run];
      WriteAllKeeps(s.places[q.c.id].row, Announcements(q.c, q.seen, 0), 0, q.ok);
    } else {
      var h := s.active[a.run];
      var found := s.places[h.c.id];
      WriteAllKeeps(found.row, Issued(h.c, h.seen, h.r.(world := found.world), s.now), |h.updates|, h.ok);
    }
  }

  /** A reader has read just now, or was one before; an active run was one, or was a reader. */
  lemma ApplyKeepsRuns<W>(s: State<W>, a: Action<W>, run: nat)
    requires Enabled(s, a)
    ensures var t := Apply(s, a);
            && (run in t.readers ==>
                  || (run in s.readers && t.readers[run] == s.readers[run])
                  || Knows(t, t.readers[run].c, t.readers[run].seen))
            && (run in t.active ==>
                  var b := t.active[run];
                  if run in s.active then b.c == s.active[run].c && b.seen == s.active[run].seen
                  else run in s.readers && b.c == s.readers[run].c && b.seen == s.readers[run].seen)
  {
    hide Next, WriteAll, Issued, Added, Start;
  }

  lemma StillKnows<W>(s: State<W>, t: State<W>, c: Config<W>, seen: Workflow)
    requires Knows(s, c, seen) && RowsKept(s, t)
    ensures Knows(t, c, seen)
  {
  }

  lemma ApplyKeepsRows<W>(s: State<W>, a: Action<W>)
    requires Enabled(s, a)
    ensures RowsKept(s, Apply(s, a))
  {
    hide Next, WriteAll, Issued, Added, Begun, Moved;
    if a.Acquire? || a.Advance? {
      ApplyKeepsRow(s, a);
    }
  }

  lemma ApplyKeepsWork<W>(s: State<W>, a: Action<W>)
    requires WellRead(s) && Enabled(s, a)
    ensures WellRead(Apply(s, a)) && RowsKept(s, Apply(s, a))
  {
    hide Apply, Enabled, Knows, RowsKept;
    var t := Apply(s, a);
    ApplyKeepsRows(s, a);
    forall run | run in t.readers ensures Knows(t, t.readers[run].c, t.readers[run].seen) {
      ApplyKeepsRuns(s, a, run);
      if run in s.readers && t.readers[run] == s.readers[run] {
        StillKnows(s, t, t.readers[run].c, t.readers[run].seen);
      }
    }
    forall run | run in t.active ensures Knows(t, t.active[run].c, t.active[run].seen) {
      ApplyKeepsRuns(s, a, run);
      StillKnows(s, t, t.active[run].c, t.active[run].seen);
    }
  }

  /**
   * In every execution, late holders included, id, name and input of a row never change; so every
   * run works on the id, name and input of its row although it read them before it had the lock.
   */
  lemma {:induction false} ReadingEarlyIsHarmlessForInput<W>(states: seq<State<W>>, actions: seq<Action<W>>)
    requires Execution(states, actions) && Initial(states[0])
    ensures WellRead(states[|actions|]) && RowsKept(states[0], states[|actions|])
  {
    hide WellRead, Enabled, Apply;
    if actions == [] {
      assert WellRead(states[0]) by { NobodyHasRead(states[0]); }
    } else {
      var n := |actions| - 1;
      ReadingEarlyIsHarmlessForInput(states[..n + 1], actions[..n]);
      ApplyKeepsWork(states[n], actions[n]);
    }
  }

  lemma NobodyHasRead<W>(s: State<W>)
    requires Initial(s)
    ensures WellRead(s)
  {
  }

  /** No run found under its lock a completion time that it had not read. */
  ghost predicate UpToDate<W>(s: State<W>) {
    forall run | run in s.active ::
      s.active[run].seen.completedAt.None? ==> s.active[run].before.row.completedAt.None?
  }

  lemma UpdatesTimeless<W>(a: Holder<W>)
    requires OnCourse(a) && !a.r.phase.Ended? && a.seen.completedAt.None? && a.before.row.completedAt.None?
    ensures Persisted(a.before.row, a.updates, a.ok).completedAt.None?
  {
    hide Finish;
    IssuedTimes(a.c, a.seen, a.r, a.last, a.last);
    PersistedIsRowOrUpdate(a.before.row, a.updates, a.ok);
  }

  lemma ApplyKeepsTime<W>(s: State<W>, a: Action<W>, places0: map<string, Place<W>>, id: string)
    requires Inv(s, places0) && Enabled(s, a) && UpToDate(s) && UpToDate(Apply(s, a))
    requires id in s.places && s.places[id].row.completedAt.Some?
    ensures var t := Apply(s, a); id in t.places && t.places[id].row.completedAt.Some?
  {
    hide Next, WriteAll, Issued, OnCourse, Persisted, InSequence, Exclusive;
    var t := Apply(s, a);
    match a
    case Acquire(run) =>
      var q := s.readers[run];
      if q.c.id == id && !Held(s.keys, LockKey(id), s.now) {
        assert t.active[run].before == s.places[id];
        WriteAllShows(s.places[id].row, Announcements(q.c, q.seen, 0), 0, q.ok);
      }
    case Advance(run) =>
      var h := s.active[run];
      if h.c.id == id {
        assert Underway(s, h) && h.r.(world := s.places[id].world) == h.r;
        if h.seen.completedAt.None? { UpdatesTimeless(h); }
        IssuedTimes(h.c, h.seen, h.r, s.now, s.now);
        WriteAllShows(s.places[id].row, Issued(h.c, h.seen, h.r, s.now), |h.updates|, h.ok);
      }
    case _ =>
  }

  /**
   * While leases last and no run works from a copy that lacks the completion time it finds, a
   * completed workflow keeps a completion time whatever is run, rolled back, dropped or killed.
   */
  lemma {:induction false} CompletionTimesSurvive<W>(states: seq<State<W>>, actions: seq<Action<W>>, i: nat, id: string)
    requires Execution(states, actions) && Initial(states[0]) && i <= |actions|
    requires forall k | 0 <= k < |states| :: Timely(states[k]) && UpToDate(states[k])
    requires id in states[i].places && states[i].places[id].row.completedAt.Some?
    ensures id in states[|actions|].places && states[|actions|].places[id].row.completedAt.Some?
  {
    hide Inv, UpToDate, Enabled, Apply;
    if i < |actions| {
      var n := |actions| - 1;
      CompletionTimesSurvive(states[..n + 1], actions[..n], i, id);
      InvHolds(states[..n + 1], actions[..n]);
      assert UpToDate(states[n]) && UpToDate(states[n + 1]);
      ApplyKeepsTime(states[n], actions[n], states[0].places, id);
    }
  }

  /** The condition is exact at the lock: a run's first update erases a time just when it had read none. */
  lemma ErasedExactlyByStaleRead<W>(s: State<W>, run: nat, id: string)
    requires Enabled(s, Acquire(run)) && id in s.places && s.places[id].row.completedAt.Some?
    ensures var q := s.readers[run];
            Apply(s, Acquire(run)).places[id].row.completedAt.None? <==>
            q.c.id == id && !Held(s.keys, LockKey(id), s.now) && q.ok(0) && q.seen.completedAt.None?
  {
    var q := s.readers[run];
    var row, first := s.places[q.c.id].row, Announcements(q.c, q.seen, 0);
    assert WriteAll(row, first, 0, q.ok) == if q.ok(0) then Write(row, first[0]) else row by {
      assert first[1..] == [];
    }
  }

  /** No run has read a row that shows a completion time. */
  ghost predicate ReadUnfinished<W>(s: State<W>) {
    forall run | run in s.active :: s.active[run].seen.completedAt.None?
  }

  ghost predicate RowsCoherent<W>(s: State<W>) {
    forall id | id in s.places :: Coherent(s.places[id].row)
  }

  lemma ApplyKeepsCoherent<W>(s: State<W>, a: Action<W>)
    requires Enabled(s, a) && RowsCoherent(s) && ReadUnfinished(s) && ReadUnfinished(Apply(s, a))
    ensures RowsCoherent(Apply(s, a))
  {
    hide Next, WriteAll, Issued;
    var t := Apply(s, a);
    match a
    case Acquire(run) =>
      var q := s.readers[run];
      if !Held(s.keys, LockKey(q.c.id), s.now) {
        assert t.active[run].seen == q.seen;
        WriteAllShows(s.places[q.c.id].row, Announcements(q.c, q.seen, 0), 0, q.ok);
      }
    case Advance(run) =>
      var h := s.active[run];
      var here := h.r.(world := s.places[h.c.id].world);
      IssuedTimes(h.c, h.seen, here, s.now, s.now);
      WriteAllShows(s.places[h.c.id].row, Issued(h.c, h.seen, here, s.now), |h.updates|, h.ok);
    case _ =>
  }

  /**
   * If no run ever holds the lock having read a completion time, no row shows one unless its status
   * is completed, in every execution, late holders included.
   */
  lemma {:induction false} CompletedAtOnlyWithCompleted<W>(states: seq<State<W>>, actions: seq<Action<W>>)
    requires Execution(states, actions) && RowsCoherent(states[0])
    requires forall k | 0 <= k < |states| :: ReadUnfinished(states[k])
    ensures RowsCoherent(states[|actions|])
  {
    hide RowsCoherent, ReadUnfinished, Enabled, Apply;
    if actions != [] {
      var n := |actions| - 1;
      CompletedAtOnlyWithCompleted(states[..n + 1], actions[..n]);
      assert ReadUnfinished(states[n]) && ReadUnfinished(states[n + 1]);
      ApplyKeepsCoherent(states[n], actions[n]);
    }
  }

  // ---------------------------------------------------------------- the lock

  /** A reader has read, at some step i, the row as it was then. */
  lemma {:induction false} ReaderStory<W>(states: seq<State<W>>, actions: seq<Action<W>>, run: nat) returns (i: nat)
    requires Execution(states, actions) && Initial(states[0]) && run in states[|actions|].readers
    ensures var q := states[|actions|].readers[run];
            && i < |actions| && actions[i] == Read(run, q.c, q.ok)
            && q.c.id in states[i].places && q.seen == states[i].places[q.c.id].row
            && forall m | i < m <= |actions| :: run in states[m].readers && states[m].readers[run] == q
  {
    hide Next, WriteAll, Issued, Added, Begun, Moved;
    var n := |actions| - 1;
    assert actions != [];
    var s, a := states[n], actions[n];
    assert Enabled(s, a) && states[n + 1] == Apply(s, a);
    if a.Read? && a.run == run {
      i := n;
    } else {
      i := ReaderStory(states[..n + 1], actions[..n], run);
    }
  }

  /** A run under a lock read its row at step i, and at step k found its place and took the lock for 300 seconds. */
  lemma {:induction false} HolderStory<W>(states: seq<State<W>>, actions: seq<Action<W>>, run: nat)
    returns (i: nat, k: nat)
    requires Execution(states, actions) && Initial(states[0]) && run in states[|actions|].active
    ensures var a := states[|actions|].active[run];
            && i < k < |actions| && actions[i] == Read(run, a.c, a.ok) && actions[k] == Acquire(run)
            && a.c.id in states[i].places && a.seen == states[i].places[a.c.id].row
            && a.c.id in states[k].places && a.before == states[k].places[a.c.id]
            && a.leaseEnd == states[k].now + 300
            && forall m | k < m <= |actions| :: On(states[m], run, a.c.id)
  {
    hide Next, WriteAll, Issued, Added, Start;
    var n := |actions| - 1;
    assert actions != [];
    var s, a := states[n], actions[n];
    assert Enabled(s, a) && states[n + 1] == Apply(s, a);
    if a.Acquire? && a.run == run {
      i := ReaderStory(states[..n + 1], actions[..n], run);
      k := n;
    } else {
      i, k := HolderStory(states[..n + 1], actions[..n], run);
    }
  }

  /** A run that is refused the lock, or gives up, is over, and has touched nothing. */
  lemma RefusedWithoutEffect<W>(states: seq<State<W>>, actions: seq<Action<W>>, i: nat, run: nat)
    requires Execution(states, actions) && i < |actions|
    requires actions[i] == GiveUp(run) || actions[i] == Acquire(run)
    ensures var s, t := states[i], states[i + 1];
            && run in s.readers && run !in t.readers
            && (actions[i] == GiveUp(run) || Held(s.keys, LockKey(s.readers[run].c.id), s.now) ==>
                  t == s.(readers := s.readers - {run}))
  {
    hide WriteAll, Begun;
    assert Enabled(states[i], actions[i]) && states[i + 1] == Apply(states[i], actions[i]);
  }

  ghost predicate Unheld<W>(s: State<W>, id: string) {
    forall run | run in s.active :: s.active[run].c.id != id
  }

  predicate KeyUntil<W>(s: State<W>, id: string, end: int) {
    LockKey(id) in s.keys && s.keys[LockKey(id)] == end
  }

  lemma KeyStays<W>(s: State<W>, a: Action<W>, id: string, end: int)
    requires Enabled(s, a) && Unheld(s, id) && KeyUntil(s, id, end)
    requires Unheld(Apply(s, a), id) || s.now < end
    ensures Unheld(Apply(s, a), id) && KeyUntil(Apply(s, a), id, end)
  {
    hide Next, WriteAll, Issued, Added, Begun;
    var t := Apply(s, a);
    match a
    case Acquire(run) =>
      var q := s.readers[run];
      KeysAreSeparate(q.c.id, id, "");
      if !Held(s.keys, LockKey(q.c.id), s.now) {
        BegunKeeps(q, s.places[q.c.id], s.now);
        assert run in t.active && t.active[run].c.id == q.c.id;
      }
    case Release(run, _) => KeysAreSeparate(s.active[run].c.id, id, "");
    case _ =>
  }

  lemma HoldersKey<W>(s: State<W>, run: nat, places0: map<string, Place<W>>)
    requires Inv(s, places0) && run in s.active
    ensures Exclusive(s) && KeyUntil(s, s.active[run].c.id, s.active[run].leaseEnd)
  {
    hide OnCourse, InSequence, Whole, Persisted, Exclusive;
    assert Underway(s, s.active[run]);
  }

  lemma CrashKeepsKey<W>(s: State<W>, run: nat)
    requires Exclusive(s) && run in s.active && KeyUntil(s, s.active[run].c.id, s.active[run].leaseEnd)
    ensures var a, t := s.active[run], Apply(s, Crash(run));
            Unheld(t, a.c.id) && KeyUntil(t, a.c.id, a.leaseEnd)
  {
  }

  function Elapsed<W>(actions: seq<Action<W>>): nat {
    if actions == [] then 0 else
      var a := actions[|actions| - 1];
      Elapsed(actions[..|actions| - 1]) + if a.Tick? then a.d else 0
  }

  /** Only ticks move the clock, and only forward. */
  lemma {:induction false} ClockOfExecution<W>(states: seq<State<W>>, actions: seq<Action<W>>, i: nat)
    requires Execution(states, actions) && i <= |actions|
    ensures states[i].now <= states[|actions|].now == states[0].now + Elapsed(actions)
  {
    hide Next, WriteAll, Issued, Added, Begun, Moved;
    if i < |actions| || actions != [] {
      var n := |actions| - 1;
      ClockOfExecution(states[..n + 1], actions[..n], if i <= n then i else n);
      assert Enabled(states[n], actions[n]) && states[n + 1] == Apply(states[n], actions[n]);
    }
  }

  lemma {:induction false} DeadKeyStays<W>(states: seq<State<W>>, actions: seq<Action<W>>, i: nat, run: nat)
    requires Execution(states, actions) && Initial(states[0]) && i < |actions|
    requires forall m | 0 <= m <= i :: Timely(states[m])
    requires actions[i] == Crash(run) && run in states[i].active
    requires var a := states[i].active[run];
             || (forall m | i < m <= |actions| :: Unheld(states[m], a.c.id))
             || states[|actions|].now < a.leaseEnd
    ensures var a := states[i].active[run];
            Unheld(states[|actions|], a.c.id) && KeyUntil(states[|actions|], a.c.id, a.leaseEnd)
  {
    hide Inv, Enabled, Apply, Unheld, KeyUntil;
    var n := |actions| - 1;
    var a := states[i].active[run];
    assert Enabled(states[n], actions[n]) && states[n + 1] == Apply(states[n], actions[n]);
    if i == n {
      InvHolds(states[..n + 1], actions[..n]);
      HoldersKey(states[n], run, states[0].places);
      CrashKeepsKey(states[n], run);
    } else {
      ClockOfExecution(states, actions, n);
      DeadKeyStays(states[..n + 1], actions[..n], i, run);
      KeyStays(states[n], actions[n], a.c.id, a.leaseEnd);
    }
  }

  /**
   * A run that dies under its lock keeps everyone else out until its lease ends. In any execution
   * timely up to the death: as long as the clock has not reached the end of the lease, no run of
   * that id is between lock and unlock; and the first to ask for the lock afterwards gets it if and
   * only if the clock has reached it.
   */
  lemma DeadHoldersLockLasts<W>(states: seq<State<W>>, actions: seq<Action<W>>, i: nat, run: nat, other: nat)
    requires Execution(states, actions) && Initial(states[0]) && i < |actions|
    requires forall m | 0 <= m <= i :: Timely(states[m])
    requires actions[i] == Crash(run) && run in states[i].active
    ensures var dead, s := states[i].active[run], states[|actions|];
            && (s.now < dead.leaseEnd ==> Unheld(s, dead.c.id) && Held(s.keys, LockKey(dead.c.id), s.now))
            && ((forall m | i < m <= |actions| :: Unheld(states[m], dead.c.id)) && Enabled(s, Acquire(other))
                && s.readers[other].c.id == dead.c.id ==>
                  (other in Apply(s, Acquire(other)).active <==> s.now >= dead.leaseEnd))
  {
    hide Inv, Next, WriteAll, Begun;
    var dead, s := states[i].active[run], states[|actions|];
    if s.now < dead.leaseEnd || forall m | i < m <= |actions| :: Unheld(states[m], dead.c.id) {
      DeadKeyStays(states, actions, i, run);
    }
  }

  // ---------------------------------------------------------------- where the hypotheses fail

  /** Timeliness is exact: a second run of the same workflow gets in just when the lease has ended. */
  lemma SecondHolderExactlyWhenLate<W>(s: State<W>, run: nat, other: nat)
    requires Exclusive(s) && run in s.active && Enabled(s, Acquire(other))
    requires s.readers[other].c.id == s.active[run].c.id
    requires LockKey(s.active[run].c.id) in s.keys && s.keys[LockKey(s.active[run].c.id)] == s.active[run].leaseEnd
    ensures var t := Apply(s, Acquire(other));
            && (!Exclusive(t) <==> s.now >= s.active[run].leaseEnd)
            && (other in t.active <==> s.now >= s.active[run].leaseEnd)
  {
    hide Begun, WriteAll;
    BegunKeeps(s.readers[other], s.places[s.readers[other].c.id], s.now);
    var t := Apply(s, Acquire(other));
    if s.now >= s.active[run].leaseEnd {
      assert other in t.active && run in t.active && t.active[other].c.id == t.active[run].c.id;
    }
  }

  /** And the delete is unconditional: once two hold the lock, the first to leave frees it under the other. */
  lemma LateUnlockFreesAnothersLock<W>(s: State<W>, run: nat, other: nat)
    requires run in s.active && other in s.active && run != other
    requires s.active[run].c.id == s.active[other].c.id && s.active[run].r.phase.Ended?
    ensures var t := Apply(s, Release(run, true));
            other in t.active && !Held(t.keys, LockKey(s.active[other].c.id), t.now)
  {
  }

  /** A workflow without steps, in a world that does not matter. */
  function Bare(): State<int> {
    var row := Workflow("w", "n", Pending, Payload("", None), "", None);
    State(0, map[], map["w" := Place(0, row)], map[], map[], [], [])
  }

  function BareConfig(): Config<int> {
    Config("w", [], Payload("", None), "", (i: nat) => true)
  }

  /** Such a run begins by writing that it is running, and then completes, whoever else there is. */
  lemma BareRun(q: Reader<int>, found: Place<int>, now: int, row: Workflow, world: int, later: int)
    requires q.c == BareConfig() && q.ok(0) && q.ok(1)
    ensures WriteAll(found.row, Announcements(q.c, q.seen, 0), 0, q.ok)
         == Write(found.row, q.seen.(status := Running))
    ensures var b := Begun(q, found, now);
            && b.c == q.c && b.leaseEnd == now + LOCK_TTL && b.ok == q.ok && |b.updates| == 1 && b.seen == q.seen
            && Fits(b.c, b.r) && !b.r.phase.Ended?
            && Moved(b, world, later).r.phase.Ended? && Moved(b, world, later).c == b.c
            && Moved(b, world, later).leaseEnd == b.leaseEnd && Next(b.c, b.r.(world := world)).world == world
            && WriteAll(row, Issued(b.c, b.seen, b.r.(world := world), later), 1, q.ok)
               == Write(row, q.seen.(status := Status.Completed, completedAt := Some(later)))
  {
    var b := Begun(q, found, now);
    var first, last := Announcements(q.c, q.seen, 0), Issued(b.c, b.seen, b.r.(world := world), later);
    assert first == [q.seen.(status := Running)] && first[1..] == [];
    assert last == [q.seen.(status := Status.Completed, completedAt := Some(later))] && last[1..] == [];
  }

  /** A run that is still there when its lease ends is joined by a second, and its unlock is the second's. */
  lemma LateHolderIsJoined() returns (states: seq<State<int>>, actions: seq<Action<int>>)
    ensures Execution(states, actions) && Initial(states[0]) && |actions| == 7
    ensures !Exclusive(states[5])
    ensures 1 in states[7].active && !Held(states[7].keys, LockKey("w"), states[7].now)
  {
    hide Begun, Moved, WriteAll, Issued, Announcements, Next, Fits;
    var ok := (i: nat) => true;
    actions := [Read(0, BareConfig(), ok), Read(1, BareConfig(), ok),
                Acquire(0), Tick(300), Acquire(1), Advance(0), Release(0, true)];
    var s0 := Bare();
    var q := Reader(BareConfig(), s0.places["w"].row, ok);
    BareRun(q, s0.places["w"], 0, s0.places["w"].row, 0, 300);
    var s1 := Apply(s0, actions[0]);
    var s2 := Apply(s1, actions[1]);
    assert s2.readers == map[0 := q, 1 := q];
    var s3 := Apply(s2, actions[2]);
    assert s3.active == map[0 := Begun(q, s0.places["w"], 0)];
    var s4 := Apply(s3, actions[3]);
    var s5 := Apply(s4, actions[4]);
    BareRun(q, s4.places["w"], 300, s4.places["w"].row, 0, 300);
    assert 0 in s5.active && 1 in s5.active;
    assert s5.active[0] == Begun(q, s0.places["w"], 0);
    var s6 := Apply(s5, actions[5]);
    var s7 := Apply(s6, actions[6]);
    states := [s0, s1, s2, s3, s4, s5, s6, s7];
  }

  /**
   * Two runs read a pending row; one completes before the other gets the lock. The other's first
   * update erases the completion time, though every lease was kept.
   */
  lemma StaleReadErasesCompletion() returns (states: seq<State<int>>, actions: seq<Action<int>>)
    ensures Execution(states, actions) && Initial(states[0]) && |actions| == 6
    ensures forall i | 0 <= i < |states| :: Timely(states[i])
    ensures var done := Workflow("w", "n", Status.Completed, Payload("", None), "", Some(0));
            && states[5].places == map["w" := Place(0, done)]
            && states[6].places == map["w" := Place(0, done.(status := Running, completedAt := None))]
  {
    hide Begun, Moved, WriteAll, Issued, Announcements, Next, Fits;
    var ok := (i: nat) => true;
    actions := [Read(0, BareConfig(), ok), Read(1, BareConfig(), ok),
                Acquire(1), Advance(1), Release(1, true), Acquire(0)];
    var s0 := Bare();
    var q := Reader(BareConfig(), s0.places["w"].row, ok);
    BareRun(q, s0.places["w"], 0, s0.places["w"].row.(status := Running), 0, 0);
    var s1 := Apply(s0, actions[0]);
    var s2 := Apply(s1, actions[1]);
    assert s2.readers == map[0 := q, 1 := q];
    var s3 := Apply(s2, actions[2]);
    assert s3.active == map[1 := Begun(q, s0.places["w"], 0)];
    var s4 := Apply(s3, actions[3]);
    var s5 := Apply(s4, actions[4]);
    BareRun(q, s5.places["w"], 0, s5.places["w"].row, 0, 0);
    var s6 := Apply(s5, actions[5]);
    states := [s0, s1, s2, s3, s4, s5, s6];
  }
}
