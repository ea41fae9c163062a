/**
 The table of duplex streams: one record per stream, holding the write half while nobody
 is writing. Each method is one region run under the table's lock.
 */
module Streams {
  import opened Common

  type Id = nat

  /** A write half, named after the stream it was inserted with. */
  type Handle = nat

  datatype StreamRec = StreamRec(write: Option<Handle>, q: seq<bytes>, ended: bool)

  type Records = map<Id, StreamRec>

  /** A record holding its write half has nothing queued and is not ended. */
  ghost predicate Tidy(recs: Records) {
    forall i :: i in recs && recs[i].write.Some? ==> recs[i].q == [] && !recs[i].ended
  }

  function Inserted(recs: Records, id: Id, w: Handle): Records {
    recs[id := StreamRec(Some(w), [], false)]
  }

  /** Queues `buf`, and hands out the write half if it was at rest, for a new write loop. */
  function Written(recs: Records, id: Id, buf: bytes): (Records, Option<Handle>) {
    if id in recs then
      (recs[id := recs[id].(q := recs[id].q + [buf], write := None)], recs[id].write)
    else (recs, None)
  }

  /** Drops a resting record and hands out its write half, or marks a busy one as ended. */
  function Removed(recs: Records, id: Id): (Records, Option<Handle>) {
    if id !in recs then (recs, None)
    else if recs[id].write.Some? then (recs - {id}, recs[id].write)
    else (recs[id := recs[id].(ended := true)], None)
  }

  /** What a write loop does after its turn under the lock. */
  datatype Turn = Close | Park | Batch(items: seq<bytes>)

  function TakeTurn(recs: Records, id: Id, w: Handle): (Records, Turn) {
    if id !in recs then (recs, Close)
    else
      var rec := recs[id];
      if rec.q != [] then (recs[id := rec.(q := [])], Batch(rec.q))
      else if rec.ended then (recs - {id}, Close)
      else (recs[id := rec.(write := Some(w))], Park)
  }

  /** Only `Inserted` adds a record. */
  lemma KeysOf(recs: Records, id: Id, buf: bytes, w: Handle)
    ensures Written(recs, id, buf).0.Keys == recs.Keys
    ensures Removed(recs, id).0.Keys <= recs.Keys
    ensures TakeTurn(recs, id, w).0.Keys <= recs.Keys
  {
    if id in recs {
      assert recs.Keys + {id} == recs.Keys;
    }
  }

  class StreamTable {
    var recs: Records

    constructor ()
      ensures recs == map[] && Tidy(recs)
    {
      recs := map[];
    }

    method Insert(id: Id, w: Handle)
      modifies this
      ensures recs == Inserted(old(recs), id, w)
      ensures old(Tidy(recs)) ==> Tidy(recs)
    {
      recs := recs[id := StreamRec(Some(w), [], false)];
    }

    /** Returns the write half a new write loop is to be spawned with, if any. */
    method Write(id: Id, buf: bytes) returns (spawned: Option<Handle>)
      modifies this
      ensures (recs, spawned) == Written(old(recs), id, buf)
      ensures old(Tidy(recs)) ==> Tidy(recs)
    {
      spawned := None;
      if id in recs {
        var s := recs[id];
        s := s.(q := s.q + [buf]);
        if s.write.Some? {
          spawned := s.write;
          s := s.(write := None);
        }
        recs := recs[id := s];
      }
    }

    /** Returns the write half the caller has to shut down once the lock is released, if any. */
    method Remove(id: Id) returns (toShutDown: Option<Handle>)
      modifies this
      ensures (recs, toShutDown) == Removed(old(recs), id)
      ensures old(Tidy(recs)) ==> Tidy(recs)
    {
      toShutDown := None;
      if id in recs {
        var s := recs[id];
        if s.write.Some? {
          toShutDown := s.write;
          recs := recs - {id};
        } else {
          recs := recs[id := s.(ended := true)];
        }
      }
    }

    /** The locked region at the top of the write loop, swapping the queue with the drained batch. */
    method NextTurn(id: Id, w: Handle) returns (turn: Turn)
      modifies this
      ensures (recs, turn) == TakeTurn(old(recs), id, w)
      ensures old(Tidy(recs)) ==> Tidy(recs)
    {
      if id !in recs {
        return Close;
      }
      var rec := recs[id];
      if rec.q == [] {
        if rec.ended {
          recs := recs - {id};
          return Close;
        }
        recs := recs[id := rec.(write := Some(w))];
        return Park;
      }
      turn := Batch(rec.q);
      recs := recs[id := rec.(q := [])];
    }
  }

  // ---- the write loop, left to itself ----

  /** What gets through of `b`, from the start, when the far end takes `limit` bytes before it goes away. */
  function Through(limit: Option<nat>, b: bytes): (r: bytes)
    ensures r <= b
  {
    if limit.Some? && limit.value < |b| then b[..limit.value] else b
  }

  /** The write half of a duplex pipe: what the far end has received, and how often it was shut down. */
  class WriteHalf {
    const limit: Option<nat>
    var data: bytes
    var shutdowns: nat

    ghost predicate Valid()
      reads this
    {
      Through(limit, data) == data
    }

    constructor (limit: Option<nat>)
      ensures Valid() && this.limit == limit && data == [] && shutdowns == 0
    {
      this.limit := limit;
      data, shutdowns := [], 0;
    }

    /** Writes the whole item, or fails having written as much of it as gets through. */
    method WriteAll(item: bytes) returns (ok: bool)
      requires Valid()
      modifies this
      ensures Valid() && shutdowns == old(shutdowns)
      ensures data == Through(limit, old(data) + item)
      ensures ok <==> data == old(data) + item
    {
      ok := limit == None || |data| + |item| <= limit.value;
      data := if ok then data + item else data + item[..limit.value - |data|];
    }

    method Shutdown()
      requires Valid()
      modifies this
      ensures Valid() && data == old(data) && shutdowns == old(shutdowns) + 1
    {
      shutdowns := shutdowns + 1;
    }
  }

  /** What was queued for a stream. */
  function Backlog(recs: Records, id: Id): bytes {
    if id in recs then Flat(recs[id].q) else []
  }

  /** What follows a write that failed does not get through either. */
  lemma ThroughLonger(limit: Option<nat>, a: bytes, b: bytes)
    requires Through(limit, a) != a
    ensures Through(limit, a + b) == Through(limit, a) && Through(limit, a + b) != a + b
  {}

  /** Drains one batch, in order, up to the first item that cannot be written; the others are dropped. */
  method DrainBatch(items: seq<bytes>, sink: WriteHalf) returns (failed: bool)
    requires sink.Valid()
    modifies sink
    ensures sink.Valid() && sink.shutdowns == old(sink.shutdowns)
    ensures sink.data == Through(sink.limit, old(sink.data) + Flat(items))
    ensures failed <==> sink.data != old(sink.data) + Flat(items)
  {
    failed := false;
    assert old(sink.data) + [] == old(sink.data);
    for k := 0 to |items|
      invariant sink.Valid() && sink.shutdowns == old(sink.shutdowns)
      invariant sink.data == old(sink.data) + Flat(items[..k])
    {
      var next := items[..k + 1];
      assert next == items[..k] + [items[k]];
      FlatSnoc(items[..k], items[k]);
      Regroup(old(sink.data), Flat(items[..k]), items[k]);
      var ok := sink.WriteAll(items[k]);
      if !ok {
        assert items == next + items[k + 1..];
        FlatConcat(next, items[k + 1..]);
        Regroup(old(sink.data), Flat(next), Flat(items[k + 1..]));
        ThroughLonger(sink.limit, old(sink.data) + Flat(next), Flat(items[k + 1..]));
        return true;
      }
    }
    assert items[..|items|] == items;
  }

  /**
   The write loop when nothing else touches the table: what was queued is written as far as it
   gets through, and the write half is put back or, for an ended or missing record, shut down.
   */
  method WriteLoop(id: Id, w: Handle, streams: StreamTable, sink: WriteHalf)
    requires sink.Valid()
    modifies streams, sink
    ensures sink.Valid() && sink.data == Through(sink.limit, old(sink.data) + Backlog(old(streams.recs), id))
    ensures var before, closed := old(streams.recs), old(id !in streams.recs || streams.recs[id].ended);
            && streams.recs == (if closed then before - {id} else before[id := StreamRec(Some(w), [], false)])
            && sink.shutdowns == old(sink.shutdowns) + (if closed then 1 else 0)
  {
    ghost var drained := false;
    assert old(sink.data) + [] == old(sink.data);
    while true
      invariant sink.Valid() && sink.shutdowns == old(sink.shutdowns)
      invariant !drained ==> streams.recs == old(streams.recs) && sink.data == old(sink.data)
      invariant drained ==>
                  && id in old(streams.recs)
                  && streams.recs == old(streams.recs)[id := old(streams.recs)[id].(q := [])]
                  && sink.data == Through(sink.limit, old(sink.data) + Backlog(old(streams.recs), id))
      decreases if id in streams.recs then |streams.recs[id].q| else 0
    {
      var turn := streams.NextTurn(id, w);
      match turn {
        case Close => break;
        case Park => return;
        case Batch(items) =>
          drained := true;
          var _ := DrainBatch(items, sink);
      }
    }
    sink.Shutdown();
  }
}
