/**
 The batch writer (forwarder/src/writer.rs): a bounded retry queue in front of a
 database table.
 */
module Writer {
  import opened Options
  import opened Seqs
  import opened Json
  import opened Storage
  import opened Pipeline

  /** Freshly inserted rows take consecutive ids in the order of the VALUES lists. */
  function Numbered(rows: seq<EventRow>, from: int): seq<StoredRow> {
    seq(|rows|, i requires 0 <= i < |rows| => StoredRow(from + i, rows[i]))
  }

  /** The table rows of `events`, whatever their ids. */
  predicate Holds(ser: Serializer, table: seq<StoredRow>, events: seq<Json>) {
    |table| == |events| && forall i | 0 <= i < |table| :: table[i].row == RowOf(ser, events[i])
  }

  predicate IdsAscend(table: seq<StoredRow>, nextId: int) {
    && (forall i | 0 <= i < |table| :: table[i].id < nextId)
    && (forall i, j | 0 <= i < j < |table| :: table[i].id < table[j].id)
  }

  /** One turn of the enqueueing loop: at the cap the oldest makes room. */
  lemma PushNewest<T>(s: seq<T>, x: T)
    ensures
      var q := Newest(s);
      Newest(s + [x]) == (if |q| >= MAX_RETRY then q[1..] else q) + [x]
  {
  }

  lemma AppendRows(ser: Serializer, table: seq<StoredRow>, stored: seq<Json>, events: seq<Json>, nextId: int)
    requires Holds(ser, table, stored)
    ensures Holds(ser, table + Numbered(RowsOf(ser, events), nextId), stored + events)
  {
  }

  lemma AppendIds(table: seq<StoredRow>, rows: seq<EventRow>, nextId: int)
    requires IdsAscend(table, nextId)
    ensures IdsAscend(table + Numbered(rows, nextId), nextId + |rows|)
  {
  }

  lemma FlushStores<T>(stored: seq<T>, queue: seq<T>, batch: seq<T>)
    requires batch != []
    ensures Flush(Pipe(stored, queue, batch), Stored) == Pipe(stored + (queue + batch), [], [])
  {
  }

  class BatchWriter {
    const ser: Serializer
    var retryQueue: seq<Json>
    /** `vibe_audit.events` in id order, and the next value of its id sequence. */
    var table: seq<StoredRow>
    var nextId: int
    /** The events the table holds, in id order. */
    ghost var stored: seq<Json>

    ghost predicate Valid()
      reads this
    {
      |retryQueue| <= MAX_RETRY && Holds(ser, table, stored) && IdsAscend(table, nextId)
    }

    constructor (ser: Serializer)
      ensures Valid() && this.ser == ser && table == [] && stored == [] && retryQueue == []
    {
      this.ser := ser;
      retryQueue, table, stored := [], [], [];
      nextId := 1;
    }

    /** `enqueue_retries`, and the loop of the failed-insert branch. */
    method EnqueueRetries(events: seq<Json>)
      requires Valid()
      modifies this`retryQueue
      ensures Valid()
      ensures retryQueue == Newest(old(retryQueue) + events)
    {
      var i := 0;
      assert retryQueue + events[..0] == retryQueue;
      while i < |events|
        invariant 0 <= i <= |events|
        invariant retryQueue == Newest(old(retryQueue) + events[..i])
      {
        PushNewest(old(retryQueue) + events[..i], events[i]);
        assert old(retryQueue) + events[..i + 1] == old(retryQueue) + events[..i] + [events[i]];
        if |retryQueue| >= MAX_RETRY {
          retryQueue := retryQueue[1..];
        }
        retryQueue := retryQueue + [events[i]];
        i := i + 1;
      }
      assert events[..|events|] == events;
    }

    /** The INSERT succeeds: its rows are appended. */
    method InsertRows(query: seq<Piece>, params: seq<Param>, ghost events: seq<Json>)
      requires Valid() && Execute(query, params) == Some(RowsOf(ser, events))
      modifies this`table, this`nextId, this`stored
      ensures Valid() && stored == old(stored) + events && old(table) <= table
    {
      var rows := Execute(query, params).value;
      AppendRows(ser, table, stored, events, nextId);
      AppendIds(table, rows, nextId);
      table := table + Numbered(rows, nextId);
      nextId := nextId + |rows|;
      stored := stored + events;
    }

    /**
     `write_batch`. The outcome is the database's: stored, no connection, or a failed
     statement that drew `burnt` ids and stored nothing. The new state is one flush
     of the pipeline; rows already in the table stay as they are.
     */
    method WriteBatch(events: seq<Json>, outcome: Outcome, burnt: nat)
      requires Valid()
      requires 18 * (MAX_RETRY + |events|) + 18 < 0x1_0000_0000
      modifies this
      ensures Valid() && old(table) <= table
      ensures Pipe(stored, retryQueue, []) == Flush(Pipe(old(stored), old(retryQueue), events), outcome)
      ensures events != [] && outcome == InsertFailed ==>
        var all := old(retryQueue) + events;
        && |retryQueue| == (if |all| < 10_000 then |all| else 10_000)
        && retryQueue == all[|all| - |retryQueue|..]
    {
      if events == [] {
        return;
      }
      var retries := retryQueue;
      retryQueue := [];
      var allEvents := retries + events;
      if outcome == PoolFailed {
        EnqueueRetries(events);
        EmptyLeft(events);
        return;
      }
      var query, params := BuildInsert(ser, allEvents);
      if outcome == Stored {
        InsertRows(query, params, allEvents);
        FlushStores(old(stored), retries, events);
      } else {
        nextId := nextId + burnt;
        EnqueueRetries(allEvents);
        EmptyLeft(allEvents);
        FailedInsertKeepsNewest(Pipe(stored, retries, events));
      }
    }
  }
}
