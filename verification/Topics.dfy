/**
 * Topics live in two stores, Kafka first and metadata second on creation, and in the same order on
 * deletion. Any external call may fail and leave a topic in just one of them.
 */
module Topics {
  import opened Prelude

  datatype Request = Request(
    name: string, partitions: int, replication: int, replicationFactor: int, retentionHours: int, cleanupPolicy: string)

  /** A metadata row. */
  datatype Topic = Topic(name: string, partitions: int, replication: int, retentionHours: int, cleanupPolicy: string)

  /** A topic as the broker has it. */
  datatype Broker = Broker(partitions: int, replication: int)

  datatype Stores = Stores(meta: map<string, Topic>, kafka: map<string, Broker>)

  /** Which external calls of an operation succeed. */
  datatype Calls = Calls(read: bool, kafka: bool, wait: bool, write: bool)

  const ALL_OK: Calls := Calls(true, true, true, true)

  datatype Error = NoError | Invalid | Exists | NotFound | KafkaFailed | NotReady | NotPersisted

  predicate NameChar(c: char) {
    'a' <= c <= 'z' || 'A' <= c <= 'Z' || '0' <= c <= '9' || c == '.' || c == '_' || c == '-'
  }

  function Lower(s: string): string {
    seq(|s|, i requires 0 <= i < |s| => if 'A' <= s[i] <= 'Z' then (s[i] as int + 32) as char else s[i])
  }

  predicate Valid(r: Request) {
    && r.name != "" && (forall c | c in r.name :: NameChar(c))
    && 0 <= r.partitions <= 1000
    && Lower(r.cleanupPolicy) in {"", "delete", "compact"}
  }

  function Replication(r: Request): int {
    if r.replicationFactor != 0 then r.replicationFactor else if r.replication != 0 then r.replication else 1
  }

  /** What the broker is asked for: with its own defaults, which the metadata row does not get. */
  function Created(r: Request): Broker {
    Broker(if r.partitions <= 0 then 6 else r.partitions, if Replication(r) <= 0 then 1 else Replication(r))
  }

  function AdminCreate(kafka: map<string, Broker>, r: Request): map<string, Broker> {
    if r.name in kafka then kafka else kafka[r.name := Created(r)]
  }

  /** The table's unique name and its CHECK constraints. */
  predicate Insertable(meta: map<string, Topic>, t: Topic) {
    t.name !in meta && t.partitions > 0 && t.replication > 0
  }

  function Row(r: Request): Topic {
    Topic(r.name, r.partitions, Replication(r), r.retentionHours, r.cleanupPolicy)
  }

  function CreateIn(s: Stores, r: Request, ok: Calls): (Stores, Error) {
    if !Valid(r) then (s, Invalid)
    else if ok.read && r.name in s.meta then (s, Exists)
    else if !ok.kafka then (s, KafkaFailed)
    else
      var s := s.(kafka := AdminCreate(s.kafka, r));
      if !ok.wait then (s, NotReady)
      else if !ok.write || !Insertable(s.meta, Row(r)) then (s, NotPersisted)
      else (s.(meta := s.meta[r.name := Row(r)]), NoError)
  }

  function DeleteFrom(s: Stores, name: string, ok: Calls): (Stores, Error) {
    if !ok.read || name !in s.meta then (s, NotFound)
    else if !ok.kafka then (s, KafkaFailed)
    else
      var s := s.(kafka := s.kafka - {name});
      if !ok.write then (s, NotPersisted) else (s.(meta := s.meta - {name}), NoError)
  }

  class Service {
    var meta: map<string, Topic>
    var kafka: map<string, Broker>

    constructor (meta: map<string, Topic>, kafka: map<string, Broker>)
      ensures View() == Stores(meta, kafka)
    {
      this.meta, this.kafka := meta, kafka;
    }

    ghost function View(): Stores
      reads this
    {
      Stores(meta, kafka)
    }

    method Create(r: Request, ok: Calls) returns (topic: Option<Topic>, err: Error)
      modifies this
      ensures (View(), err) == CreateIn(old(View()), r, ok)
      ensures topic == if err.NoError? then Some(Row(r)) else None
    {
      if !Valid(r) { return None, Invalid; }
      var replication := r.replicationFactor;
      if replication == 0 { replication := r.replication; }
      if replication == 0 { replication := 1; }
      if ok.read && r.name in meta { return None, Exists; }
      if !ok.kafka { return None, KafkaFailed; }
      kafka := AdminCreate(kafka, r);
      if !ok.wait { return None, NotReady; }
      var t := Topic(r.name, r.partitions, replication, r.retentionHours, r.cleanupPolicy);
      if !ok.write || !Insertable(meta, t) { return None, NotPersisted; }
      meta := meta[t.name := t];
      return Some(t), NoError;
    }

    /** Returns the topic exactly when it is in both stores and both could be asked. */
    method Get(name: string, ok: Calls) returns (topic: Option<Topic>, err: Error)
      ensures topic.Some? <==> ok.read && ok.kafka && name in meta && name in kafka
      ensures topic.Some? ==> topic.value == meta[name]
      ensures err == if topic.Some? then NoError
                     else if ok.read && name in meta && !ok.kafka then KafkaFailed
                     else NotFound
    {
      if !ok.read || name !in meta { return None, NotFound; }
      if !ok.kafka { return None, KafkaFailed; }
      if name !in kafka { return None, NotFound; }
      return Some(meta[name]), NoError;
    }

    method Delete(name: string, ok: Calls) returns (err: Error)
      modifies this
      ensures (View(), err) == DeleteFrom(old(View()), name, ok)
    {
      if !ok.read || name !in meta { return NotFound; }
      if !ok.kafka { return KafkaFailed; }
      kafka := kafka - {name};
      if !ok.write { return NotPersisted; }
      meta := meta - {name};
      return NoError;
    }
  }

  predicate InBoth(s: Stores, name: string) { name in s.meta && name in s.kafka }

  predicate InNeither(s: Stores, name: string) { name !in s.meta && name !in s.kafka }

  /**
   * A fault-free Create brings a topic without metadata into both stores exactly when the request
   * is valid and its sizes are positive. Zero partitions pass validation and create the Kafka
   * topic, but the default that is meant to replace them never reaches the row.
   */
  lemma CreateCompletesExactlyForPositiveSizes(s: Stores, r: Request)
    requires r.name !in s.meta
    ensures InBoth(CreateIn(s, r, ALL_OK).0, r.name) <==> Valid(r) && r.partitions > 0 && Replication(r) > 0
    ensures CreateIn(s, r, ALL_OK).1.NoError? <==> InBoth(CreateIn(s, r, ALL_OK).0, r.name)
  {
  }

  /**
   * What a fault-free Create of a valid topic in neither store leaves: a row with the retention and
   * the policy asked for, and the replication factor if it is given, else the replication, else 1;
   * a Kafka topic of the same sizes, but of six partitions where none are asked for; and all other
   * topics as they were.
   */
  lemma CreatesExactly(s: Stores, r: Request)
    requires Valid(r) && InNeither(s, r.name)
    ensures var t := CreateIn(s, r, ALL_OK).0;
            var replication := if r.replicationFactor != 0 then r.replicationFactor
                               else if r.replication != 0 then r.replication else 1;
            var row := Topic(r.name, r.partitions, replication, r.retentionHours, r.cleanupPolicy);
            && (r.partitions > 0 && replication > 0 ==>
                  && t.meta == s.meta[r.name := row]
                  && t.kafka == s.kafka[r.name := Broker(r.partitions, replication)])
            && (r.partitions == 0 && replication > 0 ==>
                  t.meta == s.meta && t.kafka == s.kafka[r.name := Broker(6, replication)])
            && (replication < 0 ==>
                  t.meta == s.meta && r.name in t.kafka && t.kafka[r.name].replication == 1)
  {
  }

  /** What a Delete leaves of the topics it does not name: everything. */
  lemma DeletesOnlyItsOwn(s: Stores, name: string, other: string, ok: Calls)
    requires other != name
    ensures var t := DeleteFrom(s, name, ok).0;
            && (other in t.meta <==> other in s.meta) && (other in s.meta ==> t.meta[other] == s.meta[other])
            && (other in t.kafka <==> other in s.kafka) && (other in s.kafka ==> t.kafka[other] == s.kafka[other])
  {
  }

  /**
   * What is turned away before either store is asked: an empty name or one with any other sign than
   * letters, digits, full stop, underscore and hyphen, partitions out of 0 to 1000, and any policy
   * that is not delete or compact, in whatever case.
   */
  lemma RejectedRequests(s: Stores, r: Request, ok: Calls)
    ensures r.name == "" ==> CreateIn(s, r, ok) == (s, Invalid)
    ensures (exists c | c in r.name :: c in " /:#$*\\") ==> CreateIn(s, r, ok) == (s, Invalid)
    ensures r.partitions < 0 || r.partitions > 1000 ==> CreateIn(s, r, ok) == (s, Invalid)
    ensures |r.cleanupPolicy| !in {0, 6, 7} ==> CreateIn(s, r, ok) == (s, Invalid)
    ensures var fine := r.cleanupPolicy in {"", "delete", "Delete", "COMPACT"};
            fine && r.name == "a.B_c-9" && r.partitions in {0, 1, 1000} ==> CreateIn(s, r, ok) != (s, Invalid)
  {
    assert Lower("") == "";
    assert Lower("delete") == "delete";
    assert Lower("Delete") == "delete";
    assert Lower("COMPACT") == "compact";
    assert |Lower(r.cleanupPolicy)| == |r.cleanupPolicy|;
    assert |"delete"| == 6 && |"compact"| == 7;
  }

  /** Such a request is accepted, creates the Kafka topic, and can be repeated for ever without a row. */
  lemma {:induction false} ZeroPartitionsNeverComplete(s: Stores, n: nat)
    requires "t" !in s.meta
    ensures var r := Request("t", 0, 1, 1, 0, "");
            var t := Run(s, seq(n, i => DoCreate(r, ALL_OK)));
            Valid(r) && "t" !in t.meta && (n > 0 ==> "t" in t.kafka)
  {
    var r := Request("t", 0, 1, 1, 0, "");
    assert forall c | c in r.name :: NameChar(c);
    assert Lower("") == "";
    if n > 0 {
      ZeroPartitionsNeverComplete(s, n - 1);
      var ops := seq(n, i => DoCreate(r, ALL_OK));
      assert ops[..n - 1] == seq(n - 1, i => DoCreate(r, ALL_OK));
    }
  }

  /** A fault-free Delete leaves nothing behind unless the topic is in Kafka alone, which it cannot reach. */
  lemma DeleteClearsExactlyWhatHasMetadata(s: Stores, name: string)
    ensures InNeither(DeleteFrom(s, name, ALL_OK).0, name) <==> name in s.meta || name !in s.kafka
  {
  }

  datatype Op = DoCreate(r: Request, ok: Calls) | DoDelete(name: string, ok: Calls)

  function Step(s: Stores, op: Op): Stores {
    match op
    case DoCreate(r, ok) => CreateIn(s, r, ok).0
    case DoDelete(name, ok) => DeleteFrom(s, name, ok).0
  }

  function Run(s: Stores, ops: seq<Op>): Stores {
    if ops == [] then s else Step(Run(s, ops[..|ops| - 1]), ops[|ops| - 1])
  }

  /** An operation on `name` that got past Kafka and no further. */
  predicate Interrupted(op: Op, name: string) {
    match op
    case DoCreate(r, ok) =>
      r.name == name && Valid(r) && ok.kafka && !(ok.wait && ok.write && r.partitions > 0 && Replication(r) > 0)
    case DoDelete(n, ok) => n == name && ok.read && ok.kafka && !ok.write
  }

  ghost predicate InStep(s: Stores, name: string) { name in s.meta <==> name in s.kafka }

  /**
   * From stores that agree, any run of calls leaves a topic in one store only if some call on it
   * was interrupted between the two; and then one fault-free call brings the stores into step.
   */
  lemma {:induction false} OnlyInterruptionsDiverge(s: Stores, ops: seq<Op>, name: string)
    requires InStep(s, name)
    ensures var t := Run(s, ops);
            && (!InStep(t, name) ==> exists i | 0 <= i < |ops| :: Interrupted(ops[i], name))
            && (name in t.meta && name !in t.kafka ==> InNeither(DeleteFrom(t, name, ALL_OK).0, name))
            && (forall r: Request ::
                  r.name == name && Valid(r) && r.partitions > 0 && Replication(r) > 0 && name !in t.meta ==>
                    InBoth(CreateIn(t, r, ALL_OK).0, name))
  {
    if ops != [] {
      var n := |ops| - 1;
      OnlyInterruptionsDiverge(s, ops[..n], name);
      var t := Run(s, ops[..n]);
      if !InStep(Run(s, ops), name) {
        if InStep(t, name) {
          assert Interrupted(ops[n], name);
        } else {
          var i :| 0 <= i < n && Interrupted(ops[..n][i], name);
          assert Interrupted(ops[i], name);
        }
      }
    }
  }

  /** Both stores describe the topics they share alike. */
  predicate Agree(s: Stores) {
    forall name | name in s.meta && name in s.kafka ::
      s.meta[name].partitions == s.kafka[name].partitions && s.meta[name].replication == s.kafka[name].replication
  }

  /** A Create that puts a row over a Kafka topic of other sizes. */
  predicate RowOverOtherSizes(s: Stores, r: Request, ok: Calls) {
    && Valid(r) && r.name !in s.meta && r.name in s.kafka
    && ok.kafka && ok.wait && ok.write && r.partitions > 0 && Replication(r) > 0
    && s.kafka[r.name] != Broker(r.partitions, Replication(r))
  }

  /** A Create that could not read the row and brings a Kafka topic of other sizes in under it. */
  predicate TopicUnderOtherSizes(s: Stores, r: Request, ok: Calls) {
    && Valid(r) && r.name in s.meta && r.name !in s.kafka
    && !ok.read && ok.kafka
    && Broker(s.meta[r.name].partitions, s.meta[r.name].replication) != Created(r)
  }

  /**
   * Repair can record wrong sizes: of stores that agree, a call leaves stores that do not exactly
   * if it is a Create that completes over a Kafka topic without a row, or one that could not read
   * the row of a topic Kafka does not have, and the sizes asked for are not those already there.
   */
  lemma AgreementLostExactlyByRepair(s: Stores, op: Op)
    requires Agree(s)
    ensures !Agree(Step(s, op)) <==>
              op.DoCreate? && (RowOverOtherSizes(s, op.r, op.ok) || TopicUnderOtherSizes(s, op.r, op.ok))
  {
    var t := Step(s, op);
    if op.DoCreate? {
      assert forall name | name != op.r.name ::
        (name in t.meta <==> name in s.meta) && (name in t.kafka <==> name in s.kafka);
    }
  }

  /** A create cut off before its row, then the same topic asked for with twice the partitions. */
  lemma RepairRecordsWrongSizes()
    ensures var cut := DoCreate(Request("t", 3, 1, 1, 0, ""), ALL_OK.(write := false));
            var again := DoCreate(Request("t", 6, 1, 1, 0, ""), ALL_OK);
            var s := Run(Stores(map[], map[]), [cut, again]);
            InBoth(s, "t") && s.kafka["t"].partitions == 3 && s.meta["t"].partitions == 6 && !Agree(s)
  {
    var cut := DoCreate(Request("t", 3, 1, 1, 0, ""), ALL_OK.(write := false));
    var again := DoCreate(Request("t", 6, 1, 1, 0, ""), ALL_OK);
    assert forall c | c in "t" :: NameChar(c);
    assert Lower("") == "";
    var none := Stores(map[], map[]);
    assert [cut, again][..1] == [cut] && [cut][..0] == [];
    assert Run(none, [cut]) == Step(Run(none, []), cut);
  }
}
