/** Replaying dead letters and time ranges of stored events. */
module Replay {
  import opened Prelude
  import opened Retry
  import opened Events

  /** LIMIT of the dead letter listing a replay works on. */
  const WINDOW: nat := 1000

  /** A published message: where to, what, and the id of the row or event it copies, as a header. */
  datatype Outgoing = Outgoing(topic: string, eventType: string, payload: string, source: nat)

  // ---------------------------------------------------------------- dead letters

  /** Row ids whose replayed mark could not be stored are kept as history. */
  datatype DeadState = DeadState(dlq: seq<DLQMessage>, outbox: seq<Outgoing>, marksLost: seq<nat>)

  datatype Row = Row(id: nat, m: DLQMessage)

  /** Which of the k-th row's calls succeed, and the time its mark is written. */
  datatype Env = Env(publishOk: nat -> bool, markOk: nat -> bool, at: nat -> int)

  function OfTopic(topic: string): DLQMessage -> bool {
    (m: DLQMessage) => m.originalTopic == topic
  }

  function Newest(): (DLQMessage, DLQMessage) -> bool {
    (a: DLQMessage, b: DLQMessage) => a.failedAt >= b.failedAt
  }

  ghost predicate ListDLQ(dlq: seq<DLQMessage>, topic: string, ids: seq<nat>) {
    Answers(dlq, OfTopic(topic), Newest(), Some(WINDOW), ids)
  }

  /** The query always has an answer. */
  lemma ListDLQAnswered(dlq: seq<DLQMessage>, topic: string) returns (ids: seq<nat>)
    ensures ListDLQ(dlq, topic, ids)
  {
    assert TotalPreorder(Newest());
    ids := AnswerExists(dlq, OfTopic(topic), Newest(), Some(WINDOW));
  }

  function Listed(dlq: seq<DLQMessage>, ids: seq<nat>): seq<Row>
    requires forall k | 0 <= k < |ids| :: ids[k] < |dlq|
  {
    seq(|ids|, k requires 0 <= k < |ids| => Row(ids[k], dlq[ids[k]]))
  }

  /** UPDATE dead_letter_messages SET replayed_at WHERE id. */
  function MarkDLQReplayed(dlq: seq<DLQMessage>, id: nat, at: int): seq<DLQMessage> {
    if id < |dlq| then dlq[id := dlq[id].(replayedAt := Some(at))] else dlq
  }

  function PublishRow(s: DeadState, target: string, r: Row, env: Env, k: nat): DeadState {
    s.(outbox := s.outbox + [Outgoing(target, r.m.eventType, r.m.payload, r.id)],
       dlq := if env.markOk(k) then MarkDLQReplayed(s.dlq, r.id, env.at(k)) else s.dlq,
       marksLost := if env.markOk(k) then s.marksLost else s.marksLost + [r.id])
  }

  datatype Result = Result(s: DeadState, count: nat, err: bool)

  /** The rows from the k-th on: skip the replayed, publish and mark the others, stop at the first error. */
  function ReplayRows(s: DeadState, target: string, rows: seq<Row>, k: nat, env: Env): Result
    requires k <= |rows|
    decreases |rows| - k
  {
    if k == |rows| then Result(s, 0, false)
    else if rows[k].m.replayedAt.Some? then ReplayRows(s, target, rows, k + 1, env)
    else if !env.publishOk(k) then Result(s, 0, true)
    else
      var rest := ReplayRows(PublishRow(s, target, rows[k], env, k), target, rows, k + 1, env);
      rest.(count := rest.count + 1)
  }

  function UnreplayedOf(topic: string): DLQMessage -> nat {
    (m: DLQMessage) => if m.originalTopic == topic && m.replayedAt.None? then 1 else 0
  }

  /** SELECT COUNT(*) ... WHERE original_topic AND replayed_at IS NULL. */
  function CountDLQUnreplayed(dlq: seq<DLQMessage>, topic: string): nat {
    SumOf(dlq, UnreplayedOf(topic))
  }

  predicate Sent(s: DeadState, id: nat) {
    exists i | 0 <= i < |s.outbox| :: s.outbox[i].source == id
  }

  /**
   * Every published row is marked, or its mark was lost; none was published twice otherwise; and
   * a row is marked only once it was published.
   */
  ghost predicate DeadInv(s: DeadState) {
    && (forall i | 0 <= i < |s.outbox| ::
          && s.outbox[i].source < |s.dlq|
          && (s.dlq[s.outbox[i].source].replayedAt.Some? || s.outbox[i].source in s.marksLost))
    && (forall i, j | 0 <= i < j < |s.outbox| && s.outbox[i].source == s.outbox[j].source ::
          s.outbox[i].source in s.marksLost)
    && (forall id: nat | id < |s.dlq| && s.dlq[id].replayedAt.Some? :: Sent(s, id))
  }

  /** The rows from k on are still as they were listed. */
  ghost predicate Current(s: DeadState, topic: string, rows: seq<Row>, k: nat) {
    && (forall j | k <= j < |rows| ::
          rows[j].id < |s.dlq| && s.dlq[rows[j].id] == rows[j].m && rows[j].m.originalTopic == topic)
    && (forall i, j | 0 <= i < j < |rows| :: rows[i].id != rows[j].id)
  }

  lemma StillCurrent(s: DeadState, topic: string, target: string, rows: seq<Row>, k: nat, env: Env)
    requires k < |rows| && Current(s, topic, rows, k)
    ensures Current(s, topic, rows, k + 1) && Current(PublishRow(s, target, rows[k], env, k), topic, rows, k + 1)
  {
  }

  lemma {:induction false} ReplayRowsExtend(s: DeadState, target: string, rows: seq<Row>, k: nat, env: Env)
    requires k <= |rows|
    ensures var r := ReplayRows(s, target, rows, k, env);
            && s.outbox <= r.s.outbox && |r.s.outbox| == |s.outbox| + r.count
            && s.marksLost <= r.s.marksLost && |r.s.dlq| == |s.dlq|
    decreases |rows| - k
  {
    if k < |rows| && (rows[k].m.replayedAt.Some? || env.publishOk(k)) {
      var t := if rows[k].m.replayedAt.Some? then s else PublishRow(s, target, rows[k], env, k);
      ReplayRowsExtend(t, target, rows, k + 1, env);
    }
  }

  /** The rows from k on that are still to be replayed, as listed. */
  function Todo(rows: seq<Row>, k: nat): seq<Row>
    requires k <= |rows|
    decreases |rows| - k
  {
    if k == |rows| then []
    else (if rows[k].m.replayedAt.None? then [rows[k]] else []) + Todo(rows, k + 1)
  }

  function CopiesOf(rows: seq<Row>, target: string): seq<Outgoing> {
    seq(|rows|, k requires 0 <= k < |rows| => Outgoing(target, rows[k].m.eventType, rows[k].m.payload, rows[k].id))
  }

  lemma {:induction false} PublishesCopies(s: DeadState, target: string, rows: seq<Row>, k: nat, env: Env)
    requires k <= |rows|
    ensures var r, todo := ReplayRows(s, target, rows, k, env), Todo(rows, k);
            && r.count <= |todo| && (r.err <==> r.count < |todo|)
            && r.s.outbox == s.outbox + CopiesOf(todo[..r.count], target)
    decreases |rows| - k
  {
    hide CopiesOf, MarkDLQReplayed;
    if k == |rows| {
      NoCopies(target);
    } else {
      NoCopies(target);
      var todo := Todo(rows, k);
      if rows[k].m.replayedAt.Some? {
        PublishesCopies(s, target, rows, k + 1, env);
        assert todo == Todo(rows, k + 1);
      } else if env.publishOk(k) {
        var t := PublishRow(s, target, rows[k], env, k);
        PublishesCopies(t, target, rows, k + 1, env);
        CopiesCons(rows[k], Todo(rows, k + 1), ReplayRows(t, target, rows, k + 1, env).count, target);
      }
    }
  }

  /** What a call publishes: the unreplayed rows in listed order, up to the first error if there is one. */
  lemma PublishesInOrder(s: DeadState, target: string, rows: seq<Row>, k: nat, env: Env)
    requires k <= |rows|
    ensures var r, todo := ReplayRows(s, target, rows, k, env), Todo(rows, k);
            && r.count <= |todo| && (r.err <==> r.count < |todo|)
            && |r.s.outbox| == |s.outbox| + r.count && r.s.outbox[..|s.outbox|] == s.outbox
            && (forall q | 0 <= q < r.count ::
                  r.s.outbox[|s.outbox| + q] ==
                    Outgoing(target, todo[q].m.eventType, todo[q].m.payload, todo[q].id))
  {
    hide ReplayRows, Todo;
    PublishesCopies(s, target, rows, k, env);
  }

  function Unmarked(rows: seq<Row>): nat -> bool {
    (j: nat) => j < |rows| && rows[j].m.replayedAt.None?
  }

  lemma TodoStep(rows: seq<Row>, k: nat)
    requires k < |rows|
    ensures var ok := Unmarked(rows);
            && CountOk(ok, k + 1) == CountOk(ok, k) + (if ok(k) then 1 else 0)
            && Todo(rows, k) == (if ok(k) then [rows[k]] else []) + Todo(rows, k + 1)
  {
  }

  lemma {:induction false} TodoLength(rows: seq<Row>, k: nat)
    requires k <= |rows|
    ensures |Todo(rows, k)| == CountOk(Unmarked(rows), |rows|) - CountOk(Unmarked(rows), k)
    decreases |rows| - k
  {
    if k < |rows| {
      hide CountOk, Todo;
      TodoLength(rows, k + 1);
      TodoStep(rows, k);
    }
  }

  /** The rows still to be replayed are just the unreplayed ones, in the order of the listing. */
  lemma {:induction false} TodoExactly(rows: seq<Row>, k: nat, j: nat)
    requires k <= j < |rows| && Unmarked(rows)(j)
    ensures |Todo(rows, k)| == CountOk(Unmarked(rows), |rows|) - CountOk(Unmarked(rows), k)
    ensures var q := CountOk(Unmarked(rows), j) - CountOk(Unmarked(rows), k);
            0 <= q < |Todo(rows, k)| && Todo(rows, k)[q] == rows[j]
    decreases j - k
  {
    hide CountOk, Todo;
    TodoLength(rows, k);
    TodoStep(rows, k);
    if k < j { TodoExactly(rows, k + 1, j); }
  }

  lemma NoCopies(target: string)
    ensures CopiesOf([], target) == []
  {
  }

  lemma CopiesCons(row: Row, rest: seq<Row>, n: nat, target: string)
    requires n <= |rest|
    ensures CopiesOf(([row] + rest)[..n + 1], target)
         == [Outgoing(target, row.m.eventType, row.m.payload, row.id)] + CopiesOf(rest[..n], target)
  {
    assert ([row] + rest)[..n + 1] == [row] + rest[..n];
  }

  lemma {:induction false} ReplayRowsCount(s: DeadState, topic: string, target: string, rows: seq<Row>, k: nat,
                                           env: Env)
    requires k <= |rows| && Current(s, topic, rows, k)
    ensures var r := ReplayRows(s, target, rows, k, env);
            CountDLQUnreplayed(r.s.dlq, topic) + r.count
            == CountDLQUnreplayed(s.dlq, topic) + (|r.s.marksLost| - |s.marksLost|)
    decreases |rows| - k
  {
    hide SumOf;
    if k < |rows| {
      var row := rows[k];
      StillCurrent(s, topic, target, rows, k, env);
      if row.m.replayedAt.Some? {
        ReplayRowsCount(s, topic, target, rows, k + 1, env);
      } else if env.publishOk(k) {
        SumUpdate(s.dlq, row.id, s.dlq[row.id].(replayedAt := Some(env.at(k))), UnreplayedOf(topic));
        ReplayRowsCount(PublishRow(s, target, row, env, k), topic, target, rows, k + 1, env);
      }
    }
  }

  lemma {:induction false} ReplayRowsKeep(s: DeadState, topic: string, target: string, rows: seq<Row>, k: nat, env: Env)
    requires k <= |rows| && Current(s, topic, rows, k) && DeadInv(s)
    ensures DeadInv(ReplayRows(s, target, rows, k, env).s)
    decreases |rows| - k
  {
    hide DeadInv;
    if k < |rows| {
      StillCurrent(s, topic, target, rows, k, env);
      if rows[k].m.replayedAt.Some? {
        ReplayRowsKeep(s, topic, target, rows, k + 1, env);
      } else if env.publishOk(k) {
        PublishKeeps(s, target, rows[k], env, k);
        ReplayRowsKeep(PublishRow(s, target, rows[k], env, k), topic, target, rows, k + 1, env);
      }
    }
  }

  /**
   * Marking is all that happens to a row, and only to listed ones that were not marked before; a
   * call without errors or lost marks marks the whole list.
   */
  lemma {:induction false} ReplayRowsMarks(s: DeadState, topic: string, target: string, rows: seq<Row>, k: nat,
                                           env: Env)
    requires k <= |rows| && Current(s, topic, rows, k)
    ensures var r := ReplayRows(s, target, rows, k, env);
            && |r.s.dlq| == |s.dlq| && |s.marksLost| <= |r.s.marksLost|
            && (forall i | 0 <= i < |s.dlq| :: r.s.dlq[i] == s.dlq[i].(replayedAt := r.s.dlq[i].replayedAt))
            && (forall i | 0 <= i < |s.dlq| && s.dlq[i].replayedAt.Some? :: r.s.dlq[i] == s.dlq[i])
            && (forall i | 0 <= i < |s.dlq| && (forall j | k <= j < |rows| :: rows[j].id != i) ::
                  r.s.dlq[i] == s.dlq[i])
            && (!r.err && |r.s.marksLost| == |s.marksLost| ==>
                  forall j | k <= j < |rows| :: r.s.dlq[rows[j].id].replayedAt.Some?)
    decreases |rows| - k
  {
    if k < |rows| && (rows[k].m.replayedAt.Some? || env.publishOk(k)) {
      StillCurrent(s, topic, target, rows, k, env);
      var t := if rows[k].m.replayedAt.Some? then s else PublishRow(s, target, rows[k], env, k);
      ReplayRowsMarks(t, topic, target, rows, k + 1, env);
    }
  }

  lemma PublishKeeps(s: DeadState, target: string, row: Row, env: Env, k: nat)
    requires DeadInv(s) && row.id < |s.dlq| && s.dlq[row.id] == row.m && row.m.replayedAt.None?
    ensures DeadInv(PublishRow(s, target, row, env, k))
  {
    var t := PublishRow(s, target, row, env, k);
    forall x | x in s.marksLost ensures x in t.marksLost {
      var q :| 0 <= q < |s.marksLost| && s.marksLost[q] == x;
      assert t.marksLost[q] == x;
    }
    if !env.markOk(k) { assert t.marksLost[|s.marksLost|] == row.id; }
    forall id: nat | id < |t.dlq| && t.dlq[id].replayedAt.Some? ensures Sent(t, id) {
      if id == row.id {
        assert t.outbox[|s.outbox|].source == id;
      } else {
        assert Sent(s, id);
        var i :| 0 <= i < |s.outbox| && s.outbox[i].source == id;
        assert t.outbox[i].source == id;
      }
    }
  }

  lemma MarkedNow(s: DeadState, topic: string, target: string, rows: seq<Row>, k: nat, env: Env)
    requires k < |rows| && Current(s, topic, rows, k) && rows[k].m.replayedAt.None? && env.publishOk(k) && env.markOk(k)
    ensures var t := ReplayRows(s, target, rows, k, env).s;
            rows[k].id < |t.dlq| && t.dlq[rows[k].id].replayedAt == Some(env.at(k))
  {
    StillCurrent(s, topic, target, rows, k, env);
    ReplayRowsMarks(PublishRow(s, target, rows[k], env, k), topic, target, rows, k + 1, env);
  }

  /** The first of the rows does not publish any other. */
  lemma PublishedLater(s: DeadState, target: string, rows: seq<Row>, k: nat, env: Env, id: nat, j: nat)
    requires k < |rows| && rows[k].id != id && (rows[k].m.replayedAt.Some? || env.publishOk(k))
    requires var u := ReplayRows(s, target, rows, k, env).s; |s.outbox| <= j < |u.outbox| && u.outbox[j].source == id
    ensures j >= |(if rows[k].m.replayedAt.Some? then s else PublishRow(s, target, rows[k], env, k)).outbox|
  {
    var t := if rows[k].m.replayedAt.Some? then s else PublishRow(s, target, rows[k], env, k);
    ReplayRowsExtend(t, target, rows, k + 1, env);
  }

  predicate SentSince(s: DeadState, t: DeadState, id: nat) {
    exists j | |s.outbox| <= j < |t.outbox| :: t.outbox[j].source == id
  }

  /** A row that was published and whose mark was stored says when. */
  lemma {:induction false} MarkedWhenPublished(s: DeadState, topic: string, target: string, rows: seq<Row>, k: nat,
                                               env: Env, q: nat)
    requires k <= q < |rows| && Current(s, topic, rows, k) && rows[q].m.replayedAt.None? && env.markOk(q)
    ensures var t := ReplayRows(s, target, rows, k, env).s;
            rows[q].id < |t.dlq| && (SentSince(s, t, rows[q].id) ==> t.dlq[rows[q].id].replayedAt == Some(env.at(q)))
    decreases |rows| - k
  {
    hide PublishRow;
    ReplayRowsExtend(s, target, rows, k, env);
    if rows[k].m.replayedAt.Some? || env.publishOk(k) {
      StillCurrent(s, topic, target, rows, k, env);
      var t := if rows[k].m.replayedAt.Some? then s else PublishRow(s, target, rows[k], env, k);
      if k < q {
        MarkedWhenPublished(t, topic, target, rows, k + 1, env, q);
        var u := ReplayRows(s, target, rows, k, env).s;
        if j :| |s.outbox| <= j < |u.outbox| && u.outbox[j].source == rows[q].id {
          PublishedLater(s, target, rows, k, env, rows[q].id, j);
        }
      } else {
        MarkedNow(s, topic, target, rows, k, env);
      }
    }
  }

  /**
   * One call: the count it returns, also with an error, is the number of rows it published, and
   * the drop in the unreplayed count but for lost marks; rows outside the window stay as they were.
   */
  lemma CountsAgree(s: DeadState, topic: string, target: string, ids: seq<nat>, env: Env)
    requires ListDLQ(s.dlq, topic, ids)
    ensures var r := ReplayRows(s, target, Listed(s.dlq, ids), 0, env);
            && s.outbox <= r.s.outbox && r.count == |r.s.outbox| - |s.outbox|
            && CountDLQUnreplayed(s.dlq, topic) - CountDLQUnreplayed(r.s.dlq, topic)
               == r.count - (|r.s.marksLost| - |s.marksLost|)
            && |r.s.dlq| == |s.dlq| && forall i | 0 <= i < |s.dlq| && i !in ids :: r.s.dlq[i] == s.dlq[i]
  {
    ListedIsCurrent(s, topic, ids);
    ReplayRowsExtend(s, target, Listed(s.dlq, ids), 0, env);
    ReplayRowsCount(s, topic, target, Listed(s.dlq, ids), 0, env);
    ReplayRowsMarks(s, topic, target, Listed(s.dlq, ids), 0, env);
  }

  lemma ListedIsCurrent(s: DeadState, topic: string, ids: seq<nat>)
    requires ListDLQ(s.dlq, topic, ids)
    ensures Current(s, topic, Listed(s.dlq, ids), 0)
  {
    forall j | 0 <= j < |ids| ensures s.dlq[ids[j]].originalTopic == topic {
      assert OfTopic(topic)(s.dlq[ids[j]]);
    }
  }

  /**
   * After a call without errors nothing is left unreplayed exactly when every unreplayed row was
   * in the listing, which it is whenever the topic has at most 1000 rows.
   */
  lemma DrainedExactlyWhenListed(s: DeadState, topic: string, target: string, ids: seq<nat>, env: Env)
    requires ListDLQ(s.dlq, topic, ids)
    ensures var r := ReplayRows(s, target, Listed(s.dlq, ids), 0, env);
            !r.err && r.s.marksLost == s.marksLost ==>
              (CountDLQUnreplayed(r.s.dlq, topic) == 0 <==>
               forall i | 0 <= i < |s.dlq| && OfTopic(topic)(s.dlq[i]) && s.dlq[i].replayedAt.None? :: i in ids)
    ensures SumOf(s.dlq, TopicRows(topic)) <= WINDOW ==>
              forall i | 0 <= i < |s.dlq| && OfTopic(topic)(s.dlq[i]) :: i in ids
  {
    hide SumOf, ReplayRows;
    var rows := Listed(s.dlq, ids);
    var r := ReplayRows(s, target, rows, 0, env);
    ListedIsCurrent(s, topic, ids);
    ReplayRowsMarks(s, topic, target, rows, 0, env);
    if !r.err && r.s.marksLost == s.marksLost {
      if i :| 0 <= i < |s.dlq| && OfTopic(topic)(s.dlq[i]) && s.dlq[i].replayedAt.None? && i !in ids {
        assert r.s.dlq[i] == s.dlq[i];
        SumAtLeast(r.s.dlq, i, UnreplayedOf(topic));
      } else {
        forall i | 0 <= i < |s.dlq| ensures UnreplayedOf(topic)(r.s.dlq[i]) == 0 {
          assert r.s.dlq[i] == s.dlq[i].(replayedAt := r.s.dlq[i].replayedAt);
          if i in ids {
            var j :| 0 <= j < |ids| && ids[j] == i;
            assert rows[j].id == i;
          } else if OfTopic(topic)(s.dlq[i]) {
            assert s.dlq[i].replayedAt.Some?;
          }
        }
        SumZero(r.s.dlq, UnreplayedOf(topic));
      }
    }
    if i :| 0 <= i < |s.dlq| && OfTopic(topic)(s.dlq[i]) && i !in ids {
      forall k | 0 <= k < |ids| ensures OfTopic(topic)(s.dlq[ids[k]]) { }
      DistinctAtMostSum(s.dlq, TopicRows(topic), ids + [i]);
    }
  }

  function TopicRows(topic: string): DLQMessage -> nat {
    (m: DLQMessage) => if m.originalTopic == topic then 1 else 0
  }

  // ---------------------------------------------------------------- the window

  /** Rows of the same topic that are newer than `m`. */
  function Newer(m: DLQMessage): DLQMessage -> nat {
    (x: DLQMessage) => if x.originalTopic == m.originalTopic && x.failedAt > m.failedAt then 1 else 0
  }

  /** Rows of the same topic that are not older than `m`, itself included. */
  function NotOlder(m: DLQMessage): DLQMessage -> nat {
    (x: DLQMessage) => if x.originalTopic == m.originalTopic && x.failedAt >= m.failedAt then 1 else 0
  }

  /** A whole window of newer rows lies before row i. */
  predicate Beyond(dlq: seq<DLQMessage>, i: nat)
    requires i < |dlq|
  {
    SumOf(dlq, Newer(dlq[i])) >= 1000
  }

  /** Row i is within the window wherever it comes among the rows that tie with it. */
  predicate Within(dlq: seq<DLQMessage>, i: nat)
    requires i < |dlq|
  {
    SumOf(dlq, NotOlder(dlq[i])) <= 1000
  }

  lemma BeyondIsUnlisted(dlq: seq<DLQMessage>, topic: string, ids: seq<nat>, i: nat)
    requires ListDLQ(dlq, topic, ids) && i < |dlq| && Beyond(dlq, i)
    ensures i !in ids
  {
    if i in ids {
      var q :| 0 <= q < |ids| && ids[q] == i;
      assert OfTopic(topic)(dlq[ids[q]]);
      var rest := ids[..q] + ids[q + 1..];
      assert ids == ids[..q] + [i] + ids[q + 1..];
      forall m | 0 <= m < |dlq| && Newer(dlq[i])(dlq[m]) == 1 ensures m in rest {
        assert OfTopic(topic)(dlq[m]);
        assert m in ids;
      }
      CoveredAtMost(dlq, Newer(dlq[i]), rest);
    }
  }

  lemma WithinIsListed(dlq: seq<DLQMessage>, ids: seq<nat>, i: nat)
    requires i < |dlq| && ListDLQ(dlq, dlq[i].originalTopic, ids) && Within(dlq, i)
    ensures i in ids
  {
    if i !in ids {
      assert OfTopic(dlq[i].originalTopic)(dlq[i]);
      var more := ids + [i];
      forall k | 0 <= k < |more| ensures more[k] < |dlq| && NotOlder(dlq[i])(dlq[more[k]]) >= 1 {
        if k < |ids| {
          assert OfTopic(dlq[i].originalTopic)(dlq[ids[k]]) && Newest()(dlq[ids[k]], dlq[i]);
        }
      }
      DistinctAtMostSum(dlq, NotOlder(dlq[i]), more);
    }
  }

  /** Any other row can be left out: a listing of the table without it is one of the table with it. */
  lemma NotWithinMayBeUnlisted(dlq: seq<DLQMessage>, i: nat) returns (ids: seq<nat>)
    requires i < |dlq| && !Within(dlq, i)
    ensures ListDLQ(dlq, dlq[i].originalTopic, ids) && i !in ids
  {
    hide SumOf;
    var topic, f := dlq[i].originalTopic, NotOlder(dlq[i]);
    var away := dlq[i].(originalTopic := topic + "x");
    assert away.originalTopic != topic by { assert |away.originalTopic| == |topic| + 1; }
    var without := dlq[i := away];
    SumUpdate(dlq, i, away, f);
    ids := ListDLQAnswered(without, topic);
    forall k | 0 <= k < |ids| ensures ids[k] != i && dlq[ids[k]] == without[ids[k]] {
      assert OfTopic(topic)(without[ids[k]]);
    }
    AllNewerListed(without, topic, ids, dlq[i]);
    forall m | 0 <= m < |dlq| && OfTopic(topic)(dlq[m]) && m !in ids
      ensures |ids| == WINDOW && forall k | 0 <= k < |ids| :: Newest()(dlq[ids[k]], dlq[m])
    {
      if m != i { assert OfTopic(topic)(without[m]); }
    }
  }

  /** With a window's worth of rows no older than m, a listing is full and holds only such rows. */
  lemma AllNewerListed(dlq: seq<DLQMessage>, topic: string, ids: seq<nat>, m: DLQMessage)
    requires ListDLQ(dlq, topic, ids) && m.originalTopic == topic && SumOf(dlq, NotOlder(m)) >= WINDOW
    ensures |ids| == WINDOW && forall k | 0 <= k < |ids| :: dlq[ids[k]].failedAt >= m.failedAt
  {
    hide SumOf;
    if |ids| < WINDOW {
      forall x | 0 <= x < |dlq| && NotOlder(m)(dlq[x]) == 1 ensures x in ids { assert OfTopic(topic)(dlq[x]); }
      CoveredAtMost(dlq, NotOlder(m), ids);
    } else if k :| 0 <= k < |ids| && dlq[ids[k]].failedAt < m.failedAt {
      var rest := ids[..k] + ids[k + 1..];
      assert ids == ids[..k] + [ids[k]] + ids[k + 1..];
      forall x | 0 <= x < |dlq| && NotOlder(m)(dlq[x]) == 1 ensures x in rest {
        assert OfTopic(topic)(dlq[x]);
        assert x in ids;
      }
      CoveredAtMost(dlq, NotOlder(m), rest);
    }
  }

  /** No call fails. */
  function Faultless(): Env {
    Env((k: nat) => true, (k: nat) => true, (k: nat) => 0)
  }

  lemma {:induction false} FaultlessReplays(s: DeadState, target: string, rows: seq<Row>, k: nat)
    requires k <= |rows|
    ensures var r := ReplayRows(s, target, rows, k, Faultless()); !r.err && r.s.marksLost == s.marksLost
    decreases |rows| - k
  {
    if k < |rows| {
      var t := if rows[k].m.replayedAt.Some? then s else PublishRow(s, target, rows[k], Faultless(), k);
      FaultlessReplays(t, target, rows, k + 1);
    }
  }

  /** A fault-free call that is answered with `ids` leaves nothing of the topic unreplayed. */
  ghost predicate Drains(s: DeadState, topic: string, target: string, ids: seq<nat>)
    requires forall k | 0 <= k < |ids| :: ids[k] < |s.dlq|
  {
    CountDLQUnreplayed(ReplayRows(s, target, Listed(s.dlq, ids), 0, Faultless()).s.dlq, topic) == 0
  }

  predicate Unreplayed(dlq: seq<DLQMessage>, topic: string, i: nat)
    requires i < |dlq|
  {
    dlq[i].originalTopic == topic && dlq[i].replayedAt.None?
  }

  /**
   * A fault-free call is sure to drain a topic, however ties are ordered, exactly if every
   * unreplayed row has no more than a window of rows that are not older, itself included; and it
   * cannot drain it if some unreplayed row has a window of newer ones.
   */
  lemma DrainedExactlyWithinWindow(s: DeadState, topic: string, target: string)
    ensures (forall ids | ListDLQ(s.dlq, topic, ids) :: Drains(s, topic, target, ids)) <==>
            (forall i | 0 <= i < |s.dlq| && Unreplayed(s.dlq, topic, i) :: Within(s.dlq, i))
    ensures (exists i | 0 <= i < |s.dlq| :: Unreplayed(s.dlq, topic, i) && Beyond(s.dlq, i)) ==>
            forall ids | ListDLQ(s.dlq, topic, ids) :: !Drains(s, topic, target, ids)
  {
    hide SumOf, ReplayRows, Within, Beyond;
    forall ids | ListDLQ(s.dlq, topic, ids)
      ensures Drains(s, topic, target, ids) <==> forall i | 0 <= i < |s.dlq| && Unreplayed(s.dlq, topic, i) :: i in ids
    {
      FaultlessReplays(s, target, Listed(s.dlq, ids), 0);
      DrainedExactlyWhenListed(s, topic, target, ids, Faultless());
    }
    if i :| 0 <= i < |s.dlq| && Unreplayed(s.dlq, topic, i) && !Within(s.dlq, i) {
      var ids := NotWithinMayBeUnlisted(s.dlq, i);
      assert !Drains(s, topic, target, ids);
    } else {
      forall ids, i | ListDLQ(s.dlq, topic, ids) && 0 <= i < |s.dlq| && Unreplayed(s.dlq, topic, i) ensures i in ids {
        WithinIsListed(s.dlq, ids, i);
      }
    }
    if i :| 0 <= i < |s.dlq| && Unreplayed(s.dlq, topic, i) && Beyond(s.dlq, i) {
      forall ids | ListDLQ(s.dlq, topic, ids) ensures !Drains(s, topic, target, ids) {
        BeyondIsUnlisted(s.dlq, topic, ids, i);
      }
    }
  }

  /** With nothing unreplayed in the window a call returns 0 and changes nothing, however many rows lie beyond it. */
  lemma {:induction false} NothingToReplay(s: DeadState, target: string, rows: seq<Row>, k: nat, env: Env)
    requires k <= |rows| && forall j | k <= j < |rows| :: rows[j].m.replayedAt.Some?
    ensures ReplayRows(s, target, rows, k, env) == Result(s, 0, false)
    decreases |rows| - k
  {
    if k < |rows| { NothingToReplay(s, target, rows, k + 1, env); }
  }

  /** So does the call after one that drained the topic. */
  lemma SecondCallReturnsZero(s: DeadState, topic: string, target: string, ids: seq<nat>, env: Env)
    requires ListDLQ(s.dlq, topic, ids) && CountDLQUnreplayed(s.dlq, topic) == 0
    ensures ReplayRows(s, target, Listed(s.dlq, ids), 0, env) == Result(s, 0, false)
  {
    forall j | 0 <= j < |ids| ensures s.dlq[ids[j]].replayedAt.Some? {
      assert OfTopic(topic)(s.dlq[ids[j]]);
      SumAtLeast(s.dlq, ids[j], UnreplayedOf(topic));
    }
    NothingToReplay(s, target, Listed(s.dlq, ids), 0, env);
  }

  datatype Action =
    | Arrive(m: DLQMessage)
    | Call(topic: string, target: string, ids: seq<nat>, env: Env)

  ghost predicate Possible(s: DeadState, a: Action) {
    match a
    case Arrive(m) => m.replayedAt.None?
    case Call(topic, _, ids, _) => ListDLQ(s.dlq, topic, ids)
  }

  function Apply(s: DeadState, a: Action): DeadState
    requires Possible(s, a)
  {
    match a
    case Arrive(m) => s.(dlq := s.dlq + [m])
    case Call(_, target, ids, env) => ReplayRows(s, target, Listed(s.dlq, ids), 0, env).s
  }

  ghost predicate Execution(states: seq<DeadState>, actions: seq<Action>) {
    && |states| == |actions| + 1
    && forall i | 0 <= i < |actions| :: Possible(states[i], actions[i]) && states[i + 1] == Apply(states[i], actions[i])
  }

  /**
   * Over any sequence of replays, each stopped by errors anywhere, with dead letters arriving in
   * between: a row is published twice only if its mark was lost, and is marked only if it was
   * published.
   */
  lemma {:induction false} NoRowTwice(states: seq<DeadState>, actions: seq<Action>)
    requires Execution(states, actions) && states[0].outbox == []
    requires forall i | 0 <= i < |states[0].dlq| :: states[0].dlq[i].replayedAt.None?
    ensures DeadInv(states[|actions|])
  {
    if actions != [] {
      var n := |actions| - 1;
      NoRowTwice(states[..n + 1], actions[..n]);
      var s, a := states[n], actions[n];
      if a.Call? {
        ListedIsCurrent(s, a.topic, a.ids);
        ReplayRowsKeep(s, a.topic, a.target, Listed(s.dlq, a.ids), 0, a.env);
      } else {
        var t := Apply(s, a);
        forall id: nat | id < |t.dlq| && t.dlq[id].replayedAt.Some? ensures Sent(t, id) {
          assert Sent(s, id);
          var i :| 0 <= i < |s.outbox| && s.outbox[i].source == id;
          assert t.outbox[i].source == id;
        }
      }
    }
  }

  lemma {:induction false} PublishesOnlyListed(s: DeadState, target: string, rows: seq<Row>, k: nat, env: Env, i: nat)
    requires k <= |rows| && forall j | k <= j < |rows| :: rows[j].id != i
    ensures var r := ReplayRows(s, target, rows, k, env);
            && s.outbox <= r.s.outbox
            && forall j | |s.outbox| <= j < |r.s.outbox| :: r.s.outbox[j].source != i
    decreases |rows| - k
  {
    if k < |rows| && (rows[k].m.replayedAt.Some? || env.publishOk(k)) {
      var t := if rows[k].m.replayedAt.Some? then s else PublishRow(s, target, rows[k], env, k);
      PublishesOnlyListed(t, target, rows, k + 1, env, i);
    }
  }

  lemma BeyondStays(s: DeadState, a: Action, i: nat)
    requires Possible(s, a) && i < |s.dlq| && Beyond(s.dlq, i)
    ensures var t := Apply(s, a);
            && |s.dlq| <= |t.dlq| && t.dlq[i] == s.dlq[i] && Beyond(t.dlq, i)
            && s.outbox <= t.outbox && forall j | |s.outbox| <= j < |t.outbox| :: t.outbox[j].source != i
  {
    hide SumOf, ReplayRows;
    match a
    case Arrive(m) => SumAppend(s.dlq, m, Newer(s.dlq[i]));
    case Call(topic, target, ids, env) =>
      var rows := Listed(s.dlq, ids);
      BeyondIsUnlisted(s.dlq, topic, ids, i);
      ListedIsCurrent(s, topic, ids);
      assert forall j | 0 <= j < |rows| :: rows[j].id == ids[j] && ids[j] in ids;
      ReplayRowsMarks(s, topic, target, rows, 0, env);
      PublishesOnlyListed(s, target, rows, 0, env, i);
      SumSame(s.dlq, Apply(s, a).dlq, Newer(s.dlq[i]));
  }

  /** A row with a window of newer ones of its topic is never published again, nor marked, whatever is called. */
  lemma {:induction false} BeyondIsNeverReplayed(states: seq<DeadState>, actions: seq<Action>, i: nat)
    requires Execution(states, actions) && i < |states[0].dlq| && Beyond(states[0].dlq, i)
    ensures var s0, s := states[0], states[|actions|];
            && i < |s.dlq| && s.dlq[i] == s0.dlq[i] && Beyond(s.dlq, i)
            && s0.outbox <= s.outbox && forall j | |s0.outbox| <= j < |s.outbox| :: s.outbox[j].source != i
  {
    hide SumOf, Beyond, Possible, Apply;
    if actions != [] {
      var n := |actions| - 1;
      BeyondIsNeverReplayed(states[..n + 1], actions[..n], i);
      BeyondStays(states[n], actions[n], i);
    }
  }

  lemma {:induction false} Arrivals(s: DeadState, m: DLQMessage, n: nat, f: DLQMessage -> nat)
    returns (states: seq<DeadState>, actions: seq<Action>)
    requires m.replayedAt.None?
    ensures Execution(states, actions) && |actions| == n && states[0] == s
    ensures var t := states[n]; t.outbox == s.outbox && s.dlq <= t.dlq && SumOf(t.dlq, f) == SumOf(s.dlq, f) + n * f(m)
  {
    hide SumOf, ReplayRows, Listed, ListDLQ;
    if n == 0 {
      states, actions := [s], [];
    } else {
      var before, acts := Arrivals(s, m, n - 1, f);
      var last := before[n - 1];
      SumAppend(last.dlq, m, f);
      var next := Apply(last, Arrive(m));
      states, actions := before + [next], acts + [Arrive(m)];
      forall i | 0 <= i < n ensures Possible(states[i], actions[i]) && states[i + 1] == Apply(states[i], actions[i]) {
        if i == n - 1 {
          assert states[i] == last && actions[i] == Arrive(m) && states[i + 1] == next;
        } else {
          assert states[i] == before[i] && actions[i] == acts[i] && states[i + 1] == before[i + 1];
        }
      }
      OneMore(n, f(m));
    }
  }

  lemma OneMore(n: nat, x: nat)
    requires n > 0
    ensures (n - 1) * x + x == n * x
  {
  }

  /** And any row gets there: a thousand newer arrivals bury it, unreplayed if it was. */
  lemma ArrivalsBury(s: DeadState, i: nat) returns (states: seq<DeadState>, actions: seq<Action>)
    requires i < |s.dlq|
    ensures Execution(states, actions) && states[0] == s && |actions| == WINDOW
    ensures var t := states[WINDOW]; i < |t.dlq| && t.dlq[i] == s.dlq[i] && t.outbox == s.outbox && Beyond(t.dlq, i)
  {
    hide SumOf;
    var m := s.dlq[i].(failedAt := s.dlq[i].failedAt + 1, replayedAt := None);
    states, actions := Arrivals(s, m, WINDOW, Newer(s.dlq[i]));
  }

  // ---------------------------------------------------------------- time ranges

  /** Replaying two adjacent ranges one after the other is a replay of the whole. */
  lemma RangesJoin(events: seq<Event>, topic: string, partition: Option<int>, start: int, mid: int, end: int,
                   a: seq<nat>, b: seq<nat>)
    requires start - 1 <= mid <= end
    requires EventsInRange(events, topic, partition, start, mid, a)
    requires EventsInRange(events, topic, partition, mid + 1, end, b)
    ensures EventsInRange(events, topic, partition, start, end, a + b)
  {
    var ids := a + b;
    forall k | 0 <= k < |ids|
      ensures ids[k] < |events| && InRange(topic, partition, start, end)(events[ids[k]])
      ensures k < |a| <==> events[ids[k]].publishedAt <= mid
    {
      if k < |a| { assert InRange(topic, partition, start, mid)(events[a[k]]); }
      else { assert InRange(topic, partition, mid + 1, end)(events[b[k - |a|]]); }
    }
    forall m | 0 <= m < |events| && InRange(topic, partition, start, end)(events[m]) ensures m in ids {
      if events[m].publishedAt <= mid { assert InRange(topic, partition, start, mid)(events[m]); }
      else { assert InRange(topic, partition, mid + 1, end)(events[m]); }
    }
    forall i, j | 0 <= i < j < |ids| ensures ids[i] != ids[j] && InTime()(events[ids[i]], events[ids[j]]) {
      if j < |a| { assert ids[i] == a[i] && ids[j] == a[j]; }
      else if i >= |a| { assert ids[i] == b[i - |a|] && ids[j] == b[j - |a|]; }
    }
  }

  /** And every replay of the whole is one of the first range followed by one of the second. */
  lemma RangeSplits(events: seq<Event>, topic: string, partition: Option<int>, start: int, mid: int, end: int,
                    ids: seq<nat>)
    returns (n: nat)
    requires start - 1 <= mid <= end
    requires EventsInRange(events, topic, partition, start, end, ids)
    ensures n <= |ids|
    ensures EventsInRange(events, topic, partition, start, mid, ids[..n])
    ensures EventsInRange(events, topic, partition, mid + 1, end, ids[n..])
  {
    n := SplitPoint(events, topic, partition, start, end, ids, mid);
    PartOfRange(events, topic, partition, start, end, ids, 0, n, start, mid);
    PartOfRange(events, topic, partition, start, end, ids, n, |ids|, mid + 1, end);
    assert ids[0..n] == ids[..n] && ids[n..|ids|] == ids[n..];
  }

  /** Where the events later than `mid` begin. */
  lemma SplitPoint(events: seq<Event>, topic: string, partition: Option<int>, start: int, end: int, ids: seq<nat>,
                   mid: int)
    returns (n: nat)
    requires EventsInRange(events, topic, partition, start, end, ids)
    ensures n <= |ids|
    ensures forall k | 0 <= k < |ids| ::
              start <= events[ids[k]].publishedAt <= end && (k < n <==> events[ids[k]].publishedAt <= mid)
  {
    n := 0;
    while n < |ids| && events[ids[n]].publishedAt <= mid
      invariant n <= |ids| && forall k | 0 <= k < n :: events[ids[k]].publishedAt <= mid
    {
      n := n + 1;
    }
    forall k | n <= k < |ids| ensures events[ids[k]].publishedAt > mid {
      if k > n { assert InTime()(events[ids[n]], events[ids[k]]); }
    }
    forall k | 0 <= k < |ids| ensures start <= events[ids[k]].publishedAt <= end {
      assert InRange(topic, partition, start, end)(events[ids[k]]);
    }
  }

  /** A stretch of a replay that holds just the events of a smaller range is a replay of that range. */
  lemma PartOfRange(events: seq<Event>, topic: string, partition: Option<int>, start: int, end: int,
                    ids: seq<nat>, lo: nat, hi: nat, from: int, to: int)
    requires EventsInRange(events, topic, partition, start, end, ids) && start <= from && to <= end && lo <= hi <= |ids|
    requires InOrder(events, InTime(), ids)
    requires forall k | 0 <= k < |ids| :: lo <= k < hi <==> from <= events[ids[k]].publishedAt <= to
    ensures EventsInRange(events, topic, partition, from, to, ids[lo..hi])
  {
    SliceInOrder(events, InTime(), ids, lo, hi);
    hide InTime, InOrder;
    var part := ids[lo..hi];
    assert forall k | 0 <= k < |part| :: part[k] == ids[lo + k];
    forall k | 0 <= k < |part| ensures part[k] < |events| && InRange(topic, partition, from, to)(events[part[k]]) {
      assert InRange(topic, partition, start, end)(events[ids[lo + k]]);
    }
    forall m | 0 <= m < |events| && InRange(topic, partition, from, to)(events[m]) ensures m in part {
      assert InRange(topic, partition, start, end)(events[m]);
      var k :| 0 <= k < |ids| && ids[k] == m;
      assert part[k - lo] == m;
    }
  }

  /** The part of a replay that falls on one partition, in the same order. */
  function OnPartition(events: seq<Event>, ids: seq<nat>, p: int): seq<nat>
    requires forall k | 0 <= k < |ids| :: ids[k] < |events|
  {
    if ids == [] then [] else
      OnPartition(events, ids[..|ids| - 1], p)
      + if events[ids[|ids| - 1]].partition == p then [ids[|ids| - 1]] else []
  }

  lemma {:induction false} OnPartitionMembers(events: seq<Event>, ids: seq<nat>, p: int, x: nat)
    requires forall k | 0 <= k < |ids| :: ids[k] < |events|
    ensures x in OnPartition(events, ids, p) <==> x in ids && events[x].partition == p
  {
    if ids != [] {
      assert ids == ids[..|ids| - 1] + [ids[|ids| - 1]];
      OnPartitionMembers(events, ids[..|ids| - 1], p, x);
    }
  }

  lemma {:induction false} OnPartitionInOrder(events: seq<Event>, ids: seq<nat>, p: int)
    requires InOrder(events, InTime(), ids)
    ensures InOrder(events, InTime(), OnPartition(events, ids, p))
  {
    if ids != [] {
      var n := |ids| - 1;
      SliceInOrder(events, InTime(), ids, 0, n);
      assert ids[0..n] == ids[..n];
      OnPartitionInOrder(events, ids[..n], p);
      hide InTime, InOrder;
      AppendOnPartition(events, ids, p, OnPartition(events, ids[..n], p));
    }
  }

  lemma AppendOnPartition(events: seq<Event>, ids: seq<nat>, p: int, r: seq<nat>)
    requires InOrder(events, InTime(), ids) && ids != [] && r == OnPartition(events, ids[..|ids| - 1], p)
    requires InOrder(events, InTime(), r)
    ensures InOrder(events, InTime(), r + [ids[|ids| - 1]])
  {
    hide InTime;
    var n := |ids| - 1;
    forall k | 0 <= k < |r| ensures InTime()(events[r[k]], events[ids[n]]) && r[k] != ids[n] {
      assert r[k] in r;
      OnPartitionMembers(events, ids[..n], p, r[k]);
      var j :| 0 <= j < n && ids[j] == r[k];
    }
    InsertedAt(events, InTime(), r, ids[n], |r|);
    assert r[..|r|] + [ids[n]] + r[|r|..] == r + [ids[n]];
  }

  /** The replay of a partition is the unfiltered replay, cut down to it. */
  lemma PartitionOfReplay(events: seq<Event>, topic: string, start: int, end: int, ids: seq<nat>, p: int)
    requires EventsInRange(events, topic, None, start, end, ids)
    ensures EventsInRange(events, topic, Some(p), start, end, OnPartition(events, ids, p))
  {
    OnPartitionInOrder(events, ids, p);
    var r := OnPartition(events, ids, p);
    forall k | 0 <= k < |r| ensures r[k] < |events| && InRange(topic, Some(p), start, end)(events[r[k]]) {
      assert r[k] in r;
      OnPartitionMembers(events, ids, p, r[k]);
      var j :| 0 <= j < |ids| && ids[j] == r[k];
      assert InRange(topic, None, start, end)(events[ids[j]]);
    }
    forall m | 0 <= m < |events| && InRange(topic, Some(p), start, end)(events[m]) ensures m in r {
      OnPartitionMembers(events, ids, p, m);
      assert InRange(topic, None, start, end)(events[m]);
    }
  }

  function Flatten(s: seq<seq<nat>>): seq<nat> {
    if s == [] then [] else Flatten(s[..|s| - 1]) + s[|s| - 1]
  }

  lemma {:induction false} FlattenMembers(s: seq<seq<nat>>, x: nat)
    ensures x in Flatten(s) <==> exists i | 0 <= i < |s| :: x in s[i]
  {
    if s != [] {
      var init := s[..|s| - 1];
      FlattenMembers(init, x);
      assert forall i | 0 <= i < |init| :: init[i] == s[i];
    }
  }

  lemma {:induction false} FlattenDistinct(s: seq<seq<nat>>)
    requires forall i | 0 <= i < |s| :: Distinct(s[i])
    requires forall i, j, x: nat | 0 <= i < j < |s| && x in s[i] :: x !in s[j]
    ensures Distinct(Flatten(s))
  {
    if s != [] {
      var n := |s| - 1;
      FlattenDistinct(s[..n]);
      var f := Flatten(s[..n]);
      forall k | 0 <= k < |f| ensures f[k] !in s[n] {
        FlattenMembers(s[..n], f[k]);
        assert f[k] in f;
        var i :| 0 <= i < n && f[k] in s[..n][i];
        assert f[k] in s[i];
      }
    }
  }

  /** Replaying every partition on its own publishes a permutation of the unfiltered replay. */
  lemma PartitionsTogether(events: seq<Event>, topic: string, start: int, end: int,
                           ids: seq<nat>, parts: seq<int>, replays: seq<seq<nat>>)
    requires EventsInRange(events, topic, None, start, end, ids)
    requires |replays| == |parts| && forall i, j | 0 <= i < j < |parts| :: parts[i] != parts[j]
    requires forall i | 0 <= i < |parts| :: EventsInRange(events, topic, Some(parts[i]), start, end, replays[i])
    requires forall m | 0 <= m < |events| && InRange(topic, None, start, end)(events[m]) :: events[m].partition in parts
    ensures multiset(Flatten(replays)) == multiset(ids)
  {
    forall i, x: nat | 0 <= i < |parts|
      ensures x in replays[i] <==> x in ids && events[x].partition == parts[i]
    {
      ReplayMembers(events, topic, start, end, ids, parts[i], replays[i], x);
    }
    FlattenDistinct(replays);
    forall x: nat ensures x in Flatten(replays) <==> x in ids {
      FlattenMembers(replays, x);
      if x in ids {
        var k :| 0 <= k < |ids| && ids[k] == x;
        assert InRange(topic, None, start, end)(events[ids[k]]);
        var i :| 0 <= i < |parts| && parts[i] == events[x].partition;
        assert x in replays[i];
      }
    }
    SameMembersSameMultiset(Flatten(replays), ids);
  }

  lemma ReplayMembers(events: seq<Event>, topic: string, start: int, end: int, ids: seq<nat>, p: int,
                      replay: seq<nat>, x: nat)
    requires EventsInRange(events, topic, None, start, end, ids)
    requires EventsInRange(events, topic, Some(p), start, end, replay)
    ensures x in ids ==> x < |events|
    ensures x in replay <==> x in ids && events[x].partition == p
  {
    if x in ids {
      var k :| 0 <= k < |ids| && ids[k] == x;
      assert InRange(topic, None, start, end)(events[ids[k]]);
    }
    if x in replay {
      var k :| 0 <= k < |replay| && replay[k] == x;
      assert InRange(topic, Some(p), start, end)(events[replay[k]]);
      assert InRange(topic, None, start, end)(events[x]);
    } else if x < |events| {
      assert !InRange(topic, Some(p), start, end)(events[x]);
    }
  }

  /**
   * Replays store no events, so repeating one over the same events publishes a permutation of
   * what it published before, and the very same sequence if no two events share time and offset.
   */
  lemma RepeatedReplay(events: seq<Event>, topic: string, partition: Option<int>, start: int, end: int, a: seq<nat>,
                       b: seq<nat>)
    requires EventsInRange(events, topic, partition, start, end, a)
    requires EventsInRange(events, topic, partition, start, end, b)
    ensures multiset(a) == multiset(b)
    ensures (forall i, j | 0 <= i < j < |a| ::
               events[a[i]].publishedAt != events[a[j]].publishedAt || events[a[i]].offset != events[a[j]].offset) ==>
              a == b
  {
    forall x: nat ensures x in a <==> x in b {
      InAnswer(events, topic, partition, start, end, a, x);
      InAnswer(events, topic, partition, start, end, b, x);
    }
    SameMembersSameMultiset(a, b);
    if forall i, j | 0 <= i < j < |a| ::
         events[a[i]].publishedAt != events[a[j]].publishedAt || events[a[i]].offset != events[a[j]].offset
    {
      forall i, j | 0 <= i < j < |a| ensures !InTime()(events[a[j]], events[a[i]]) {
        assert InTime()(events[a[i]], events[a[j]]);
      }
      SameOrder(events, InTime(), a, b);
    }
  }

  lemma InAnswer(events: seq<Event>, topic: string, partition: Option<int>, start: int, end: int, a: seq<nat>, x: nat)
    requires EventsInRange(events, topic, partition, start, end, a)
    ensures x in a <==> x < |events| && InRange(topic, partition, start, end)(events[x])
  {
  }

  // ---------------------------------------------------------------- the service

  datatype Request = Request(
    topic: string, partition: Option<int>, startTime: Option<int>, endTime: Option<int>, dlqOnly: bool,
    targetTopic: string)

  function Copies(events: seq<Event>, ids: seq<nat>, target: string): seq<Outgoing>
    requires forall k | 0 <= k < |ids| :: ids[k] < |events|
  {
    seq(|ids|, k requires 0 <= k < |ids| =>
      Outgoing(target, events[ids[k]].eventType, events[ids[k]].payload, events[ids[k]].id))
  }

  class Service {
    var events: seq<Event>
    var dlq: seq<DLQMessage>
    var outbox: seq<Outgoing>
    ghost var marksLost: seq<nat>

    constructor (events: seq<Event>, dlq: seq<DLQMessage>)
      ensures this.events == events && this.dlq == dlq && outbox == [] && marksLost == []
    {
      this.events, this.dlq := events, dlq;
      outbox, marksLost := [], [];
    }

    ghost function View(): DeadState
      reads this
    {
      DeadState(dlq, outbox, marksLost)
    }

    /** `listing` is what the store answers to the query the request leads to; None is a failed query. */
    method Replay(req: Request, now: int, listing: Option<seq<nat>>, env: Env) returns (count: nat, err: bool)
      requires listing.Some? ==>
                 if req.dlqOnly then ListDLQ(dlq, req.topic, listing.value)
                 else EventsInRange(events, req.topic, req.partition,
                                    if req.startTime.Some? then req.startTime.value else 0,
                                    if req.endTime.Some? then req.endTime.value else now, listing.value)
      modifies this`dlq, this`outbox, this`marksLost
      ensures listing.None? ==> err && count == 0 && View() == old(View())
      ensures var target := if req.targetTopic != "" then req.targetTopic else req.topic;
              listing.Some? ==>
                if req.dlqOnly then
                  Result(View(), count, err) == ReplayRows(old(View()), target, Listed(old(dlq), listing.value), 0, env)
                else
                  && count <= |listing.value| && (err <==> count < |listing.value|)
                  && (forall k | 0 <= k < count :: env.publishOk(k)) && (err ==> !env.publishOk(count))
                  && dlq == old(dlq) && marksLost == old(marksLost)
                  && outbox == old(outbox) + Copies(events, listing.value[..count], target)
                  && (forall k | 0 <= k < count ::
                        var e := events[listing.value[k]];
                        outbox[|old(outbox)| + k] == Outgoing(target, e.eventType, e.payload, e.id))
    {
      hide ReplayRows, InRange, InTime;
      var target := req.topic;
      if req.targetTopic != "" {
        target := req.targetTopic;
      }
      if listing.None? { return 0, true; }
      if req.dlqOnly {
        count, err := ReplayDLQ(target, req.topic, listing.value, env);
        return;
      }
      var ids := listing.value;
      count := 0;
      while count < |ids|
        invariant count <= |ids| && (forall k | 0 <= k < count :: env.publishOk(k))
        invariant dlq == old(dlq) && marksLost == old(marksLost)
        invariant outbox == old(outbox) + Copies(events, ids[..count], target)
      {
        if !env.publishOk(count) { return count, true; }
        var e := events[ids[count]];
        assert Copies(events, ids[..count + 1], target)
            == Copies(events, ids[..count], target) + [Outgoing(target, e.eventType, e.payload, e.id)];
        outbox := outbox + [Outgoing(target, e.eventType, e.payload, e.id)];
        count := count + 1;
      }
      assert ids[..count] == ids;
      return count, false;
    }

    method ReplayDLQ(target: string, sourceTopic: string, ids: seq<nat>, env: Env) returns (count: nat, err: bool)
      requires ListDLQ(dlq, sourceTopic, ids)
      modifies this`dlq, this`outbox, this`marksLost
      ensures Result(View(), count, err) == ReplayRows(old(View()), target, Listed(old(dlq), ids), 0, env)
    {
      hide PublishRow;
      var rows := Listed(dlq, ids);
      ghost var end := ReplayRows(View(), target, rows, 0, env);
      count := 0;
      for k := 0 to |rows|
        invariant var rest := ReplayRows(View(), target, rows, k, env);
                  end == rest.(count := rest.count + count)
      {
        var r := rows[k];
        if r.m.replayedAt.Some? { continue; }
        if !env.publishOk(k) { return count, true; }
        PublishAndMark(target, r, k, env);
        count := count + 1;
      }
      return count, false;
    }

    /** Publishes one row; the error of marking it is ignored. */
    method PublishAndMark(target: string, r: Row, k: nat, env: Env)
      modifies this`dlq, this`outbox, this`marksLost
      ensures View() == PublishRow(old(View()), target, r, env, k)
    {
      outbox := outbox + [Outgoing(target, r.m.eventType, r.m.payload, r.id)];
      if env.markOk(k) {
        dlq := MarkDLQReplayed(dlq, r.id, env.at(k));
      } else {
        marksLost := marksLost + [r.id];
      }
    }
  }
}
