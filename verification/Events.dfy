/** The events table: what a publish stores and what a time range reads back. */
module Events {
  import opened Prelude

  /** A row; the empty key is stored as NULL. */
  datatype Event = Event(
    id: nat, topic: string, partition: int, offset: int, eventType: string, key: string, payload: string,
    publishedAt: int)

  /** INSERT ... ON CONFLICT (idempotency_key) DO NOTHING. A repeated id is an error, which stores nothing either. */
  function StoreEvent(events: seq<Event>, e: Event): seq<Event> {
    if (exists i | 0 <= i < |events| :: events[i].id == e.id)
       || (e.key != "" && exists i | 0 <= i < |events| :: events[i].key == e.key)
    then events else events + [e]
  }

  /** No row has the event's id, or its key if it has one. */
  predicate IsNew(events: seq<Event>, e: Event) {
    forall i | 0 <= i < |events| :: events[i].id != e.id && (e.key != "" ==> events[i].key != e.key)
  }

  function InRange(topic: string, partition: Option<int>, start: int, end: int): Event -> bool {
    (e: Event) =>
      && e.topic == topic && start <= e.publishedAt <= end
      && (partition.Some? ==> e.partition == partition.value)
  }

  function InTime(): (Event, Event) -> bool {
    (a: Event, b: Event) => a.publishedAt < b.publishedAt || (a.publishedAt == b.publishedAt && a.offset <= b.offset)
  }

  ghost predicate EventsInRange(events: seq<Event>, topic: string, partition: Option<int>, start: int, end: int,
                                ids: seq<nat>)
  {
    Answers(events, InRange(topic, partition, start, end), InTime(), None, ids)
  }

  /**
   * What a listing holds: just the events of the topic published in the range, both ends included,
   * on the partition if one is given; each once; by time, and at the same time by offset.
   */
  lemma EventsInRangeExactly(events: seq<Event>, topic: string, partition: Option<int>, start: int, end: int,
                             ids: seq<nat>)
    requires EventsInRange(events, topic, partition, start, end, ids)
    ensures forall m: nat :: m in ids <==>
              && m < |events| && events[m].topic == topic && start <= events[m].publishedAt <= end
              && (partition == None || partition == Some(events[m].partition))
    ensures forall i, j | 0 <= i < j < |ids| ::
              && ids[i] != ids[j]
              && var a, b := events[ids[i]], events[ids[j]];
              a.publishedAt < b.publishedAt || (a.publishedAt == b.publishedAt && a.offset <= b.offset)
  {
    forall m: nat
      ensures m in ids <==>
                && m < |events| && events[m].topic == topic && start <= events[m].publishedAt <= end
                && (partition == None || partition == Some(events[m].partition))
    {
      if k :| 0 <= k < |ids| && ids[k] == m {
        assert InRange(topic, partition, start, end)(events[ids[k]]);
      } else if m < |events| {
        assert !InRange(topic, partition, start, end)(events[m]);
      }
    }
    forall i, j | 0 <= i < j < |ids|
      ensures var a, b := events[ids[i]], events[ids[j]];
              a.publishedAt < b.publishedAt || (a.publishedAt == b.publishedAt && a.offset <= b.offset)
    {
      assert InTime()(events[ids[i]], events[ids[j]]);
    }
  }

  /** The query always has an answer. */
  lemma EventsInRangeAnswered(events: seq<Event>, topic: string, partition: Option<int>, start: int, end: int)
    returns (ids: seq<nat>)
    ensures EventsInRange(events, topic, partition, start, end, ids)
  {
    assert TotalPreorder(InTime());
    ids := AnswerExists(events, InRange(topic, partition, start, end), InTime(), None);
  }
}
