/** The consumer: batches envelopes, inserts with bounded retries and acknowledges the log
    only after a successful insert. */
module Consumer {
  import opened Wal
  import opened Pipeline

  const ATTEMPTS := 4  // one insert and three retries

  /** Whether attempt k of one flush inserts, whether the context ends in the wait after it, and
      whether the acknowledgement that follows reaches the disk. */
  datatype Weather = Weather(inserts: nat -> bool, cancelled: nat -> bool, acks: bool)

  /** Attempt k is made: every earlier one failed and no wait was cut short. */
  ghost predicate Attempted(w: Weather, k: nat) {
    forall j: nat :: j < k ==> !w.inserts(j) && !w.cancelled(j)
  }

  /** Some attempt within the budget is made and inserts. */
  ghost predicate GetsThrough(w: Weather) {
    exists k: nat :: k < ATTEMPTS && w.inserts(k) && Attempted(w, k)
  }

  /** In full: the insert works at once, or after one, two or three waits that are not cut short. */
  lemma GetsThroughExactly(w: Weather)
    ensures GetsThrough(w) <==>
      || w.inserts(0)
      || (!w.cancelled(0) && w.inserts(1))
      || (!w.cancelled(0) && !w.cancelled(1) && w.inserts(2))
      || (!w.cancelled(0) && !w.cancelled(1) && !w.cancelled(2) && w.inserts(3))
  {
    if w.inserts(0) {
      assert Attempted(w, 0);
    } else if !w.cancelled(0) && w.inserts(1) {
      assert Attempted(w, 1);
    } else if !w.cancelled(0) && !w.cancelled(1) && w.inserts(2) {
      assert Attempted(w, 2);
    } else if !w.cancelled(0) && !w.cancelled(1) && !w.cancelled(2) && w.inserts(3) {
      assert Attempted(w, 3);
    }
  }

  /** The log after a flush of a non-empty batch whose last index is lastIdx. */
  function AfterAck(log: Log, lastIdx: nat, through: bool, acks: bool): Log
    requires log.Valid()
  {
    if through && acks && lastIdx > 0 then Acked(log, lastIdx) else log
  }

  function Bytes(es: seq<Event>): nat {
    if es == [] then 0 else Bytes(es[..|es| - 1]) + es[|es| - 1].bytes
  }

  function Concat(bs: seq<seq<Event>>): seq<Event> {
    if bs == [] then [] else Concat(bs[..|bs| - 1]) + bs[|bs| - 1]
  }

  lemma OneMoreBatch(bs: seq<seq<Event>>, b: seq<Event>)
    ensures Concat(bs + [b]) == Concat(bs) + b && Concat(bs) + b + [] == Concat(bs) + b
  {
    assert (bs + [b])[..|bs|] == bs;
  }

  function Payloads(vs: seq<Envelope>): seq<Event> {
    seq(|vs|, i requires 0 <= i < |vs| => vs[i].ev)
  }

  class Consumer {
    const wal: WalWriter
    const batchRows: nat
    const maxBytes: nat
    var batch: seq<Event>
    var batchBytes: nat
    var lastIdx: nat
    var inserted: seq<seq<Event>>  // the batches ClickHouse accepted
    var flushed: seq<seq<Event>>   // every batch that was tried, accepted or given up
    ghost var received: seq<Envelope>

    ghost predicate WithinLimits(b: seq<Event>) {
      0 < |b| <= batchRows && Bytes(b[..|b| - 1]) < maxBytes
    }

    /** The batches tried, followed by the one in hand, are what was received, in order; each
        stayed within the row limit and below the byte limit until its last event. */
    ghost predicate Valid()
      reads this, wal
    {
      && wal.Valid()
      && 0 < batchRows && 0 < maxBytes
      && batchBytes == Bytes(batch)
      && |batch| < batchRows && batchBytes < maxBytes
      && Concat(flushed) + batch == Payloads(received)
      && (forall b <- flushed :: WithinLimits(b))
      && (forall b <- inserted :: b in flushed)
      && lastIdx == (if received == [] then 0 else received[|received| - 1].idx)
    }

    constructor (wal: WalWriter, batchRows: nat, maxBytes: nat)
      requires wal.Valid()
      ensures Valid() && this.wal == wal && received == [] && inserted == []
      ensures this.batchRows == (if batchRows == 0 then 1000 else batchRows)
      ensures this.maxBytes == (if maxBytes == 0 then 10 * 1024 * 1024 else maxBytes)
    {
      this.wal := wal;
      this.batchRows := if batchRows == 0 then 1000 else batchRows;
      this.maxBytes := if maxBytes == 0 then 10 * 1024 * 1024 else maxBytes;
      batch, batchBytes, lastIdx := [], 0, 0;
      inserted, flushed, received := [], [], [];
    }

    /** At most four attempts; the batch reaches ClickHouse once if one of them gets through,
        and not at all otherwise. */
    method InsertWithRetry(weather: Weather) returns (ok: bool)
      modifies this`inserted
      ensures ok <==> GetsThrough(weather)
      ensures inserted == if ok then old(inserted) + [batch] else old(inserted)
    {
      for k := 0 to ATTEMPTS
        invariant Attempted(weather, k)
        invariant inserted == old(inserted)
      {
        if weather.inserts(k) {
          inserted := inserted + [batch];
          return true;
        }
        if k == ATTEMPTS - 1 {
          break;
        }
        if weather.cancelled(k) {
          return false;
        }
      }
      ok := false;
    }

    /** The batches tried and the one in hand, which may be full, are what was received. */
    ghost predicate Batched()
      reads this, wal
    {
      && wal.Valid()
      && 0 < batchRows && 0 < maxBytes
      && batchBytes == Bytes(batch)
      && (batch != [] ==> WithinLimits(batch))
      && Concat(flushed) + batch == Payloads(received)
      && (forall b <- flushed :: WithinLimits(b))
      && lastIdx == (if received == [] then 0 else received[|received| - 1].idx)
    }

    /** The state the flush requires. */
    ghost predicate Flushable()
      reads this, wal
    {
      Batched() && forall b <- inserted :: b in flushed
    }

    /** One non-empty batch was tried: it is inserted if it gets through, the log is acknowledged
        through the last received index only then, and the batch is cleared either way. */
    twostate predicate Tried(b: seq<Event>, weather: Weather)
      reads this, wal
      requires old(wal.log).Valid()
    {
      && batch == []
      && flushed == old(flushed) + [b]
      && inserted == (if GetsThrough(weather) then old(inserted) + [b] else old(inserted))
      && wal.log == AfterAck(old(wal.log), lastIdx, GetsThrough(weather), weather.acks)
    }

    twostate predicate Untouched()
      reads this, wal
    {
      flushed == old(flushed) && inserted == old(inserted) && wal.log == old(wal.log)
    }

    /** Tries the batch, unless it is empty. */
    method Flush(weather: Weather)
      requires Flushable()
      modifies this`batch, this`batchBytes, this`inserted, this`flushed, wal`log
      ensures Valid() && batch == []
      ensures if old(batch) == [] then Untouched() else Tried(old(batch), weather)
    {
      if |batch| == 0 {
        return;
      }
      var ok := InsertWithRetry(weather);
      Clear(ok, weather.acks);
    }

    /** The end of a flush: the acknowledgement, if the insert got through, and an empty batch. */
    method Clear(ok: bool, acks: bool)
      requires Batched() && batch != [] && forall b <- inserted :: b in flushed || b == batch
      modifies this`batch, this`batchBytes, this`flushed, wal`log
      ensures Valid() && batch == [] && flushed == old(flushed) + [old(batch)]
      ensures wal.log == AfterAck(old(wal.log), lastIdx, ok, acks)
    {
      if ok && lastIdx > 0 {
        var acked := wal.Ack(lastIdx, acks);
      }
      OneMoreBatch(flushed, batch);
      flushed := flushed + [batch];
      batch, batchBytes := [], 0;
    }

    method Add(v: Envelope) returns (full: bool)
      requires Valid()
      modifies this`batch, this`batchBytes, this`lastIdx, this`received
      ensures Flushable() && received == old(received) + [v] && batch == old(batch) + [v.ev]
      ensures full <==> |batch| >= batchRows || Bytes(batch) >= maxBytes
    {
      lastIdx := v.idx;
      received := received + [v];
      batch := batch + [v.ev];
      batchBytes := batchBytes + v.ev.bytes;
      full := |batch| >= batchRows || batchBytes >= maxBytes;
      assert Payloads(received) == Payloads(old(received)) + [v.ev];
      assert batch[..|batch| - 1] == old(batch);
    }

    /** The select arm of the channel: the event joins the batch, which is tried exactly when it
        is full. */
    method Receive(v: Envelope, weather: Weather)
      requires Valid()
      modifies this`batch, this`batchBytes, this`lastIdx, this`received, this`inserted, this`flushed, wal`log
      ensures Valid() && received == old(received) + [v] && lastIdx == v.idx
      ensures var b := old(batch) + [v.ev];
        if |b| >= batchRows || Bytes(b) >= maxBytes then Tried(b, weather) else batch == b && Untouched()
    {
      var full := Add(v);
      if full {
        Flush(weather);
      }
    }

    /** The ticker's select arm. */
    method Tick(weather: Weather)
      requires Valid()
      modifies this`batch, this`batchBytes, this`inserted, this`flushed, wal`log
      ensures Valid() && batch == []
      ensures if old(batch) == [] then Untouched() else Tried(old(batch), weather)
    {
      Flush(weather);
    }

    /** The channel closed, or stayed quiet while draining: one last flush and a sync of what is
        left in the log. */
    method Finish(weather: Weather, syncs: bool)
      requires Valid()
      modifies this`batch, this`batchBytes, this`inserted, this`flushed, wal`log
      ensures Valid() && batch == []
      ensures flushed == if old(batch) == [] then old(flushed) else old(flushed) + [old(batch)]
      ensures inserted ==
        if old(batch) != [] && GetsThrough(weather) then old(inserted) + [old(batch)] else old(inserted)
      ensures var log := AfterAck(old(wal.log), lastIdx, old(batch) != [] && GetsThrough(weather), weather.acks);
        log.Valid() && wal.log == if syncs then log.AllSynced() else log
    {
      Flush(weather);
      wal.Sync(syncs);
    }
  }
}
