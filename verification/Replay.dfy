/** The boot-time replay: every readable entry of the log goes to ClickHouse in order, in
    bounded batches, and the log is truncated behind it. */
module Replay {
  import opened Wal
  import opened Pipeline
  import opened Consumer

  function Readable(es: seq<Entry>): seq<Event> {
    if es == [] then []
    else Readable(es[..|es| - 1]) + if es[|es| - 1].readable then [es[|es| - 1].ev] else []
  }

  /** The readable events keep the order of the entries: the log may be read in any two parts. */
  lemma {:induction false} ReadableConcat(a: seq<Entry>, b: seq<Entry>)
    ensures Readable(a + b) == Readable(a) + Readable(b)
    ensures forall e: Event :: Readable([Entry(e, true)]) == [e] && Readable([Entry(e, false)]) == []
  {
    if b == [] {
      assert a + b == a;
    } else {
      assert (a + b)[..|a + b| - 1] == a + b[..|b| - 1];
      ReadableConcat(a, b[..|b| - 1]);
    }
  }

  /** Full batches, then one shorter, non-empty remainder. */
  ghost predicate WellBatched(bs: seq<seq<Event>>) {
    forall i :: 0 <= i < |bs| ==> 0 < |bs[i]| <= REPLAY_BATCH && (i < |bs| - 1 ==> |bs[i]| == REPLAY_BATCH)
  }

  /** The full batches of a replay, as one sequence. */
  function FullPart(es: seq<Event>): seq<Event> {
    es[..|es| - |es| % REPLAY_BATCH]
  }

  /** The log after a replay that succeeded: truncated through its last index, unless no
      entry was readable. */
  function Replayed(log: Log): Log
    requires log.Valid()
  {
    if Readable(log.entries) == [] || log.entries == [] then log else Acked(log, log.Last() as nat)
  }

  /** The closure state of the replay callback: its batch, its running total, and the inserts
      ClickHouse has accepted. `accepts(k)` is the outcome of the k-th insert. */
  class Sink {
    const accepts: nat -> bool
    var batch: seq<Event>
    var total: nat
    var inserts: seq<seq<Event>>
    ghost var seen: seq<Event>

    ghost predicate Valid()
      reads this
    {
      && |batch| < REPLAY_BATCH
      && (forall b <- inserts :: |b| == REPLAY_BATCH)
      && Concat(inserts) + batch == seen
      && total == |Concat(inserts)|
      && (total == 0 <==> inserts == [])
    }

    constructor (accepts: nat -> bool)
      ensures Valid() && this.accepts == accepts && batch == [] && inserts == [] && seen == [] && total == 0
    {
      this.accepts := accepts;
      batch, total, inserts, seen := [], 0, [], [];
    }

    method Flush() returns (ok: bool)
      requires Concat(inserts) + batch == seen && total == |Concat(inserts)| && (total == 0 <==> inserts == [])
      modifies this`batch, this`total, this`inserts
      ensures Concat(inserts) + batch == seen && total == |Concat(inserts)| && (total == 0 <==> inserts == [])
      ensures ok ==> batch == [] && inserts == (if old(batch) == [] then old(inserts) else old(inserts) + [old(batch)])
      ensures !ok ==> batch == old(batch) != [] && inserts == old(inserts) && !accepts(|inserts|)
    {
      if |batch| == 0 {
        return true;
      }
      if !accepts(|inserts|) {
        return false;
      }
      assert (inserts + [batch])[..|inserts|] == inserts;
      inserts := inserts + [batch];
      total := total + |batch|;
      batch := [];
      ok := true;
    }

    /** The callback: collects the event and flushes a full batch. */
    method OnEvent(ev: Event) returns (ok: bool)
      requires Valid()
      modifies this
      ensures ok ==> Valid() && seen == old(seen) + [ev]
      ensures !ok ==> inserts == old(inserts) && Concat(inserts) <= seen == old(seen) + [ev]
    {
      seen := seen + [ev];
      batch := batch + [ev];
      assert Concat(inserts) + batch == seen;
      ok := true;
      if |batch| >= REPLAY_BATCH {
        ok := Flush();
      }
    }
  }

  lemma {:induction false} ReadablePrefix(es: seq<Entry>, n: nat)
    requires n <= |es|
    ensures Readable(es[..n]) <= Readable(es)
  {
    if n < |es| {
      ReadablePrefix(es[..|es| - 1], n);
      assert es[..|es| - 1][..n] == es[..n];
    } else {
      assert es[..n] == es;
    }
  }

  lemma ReadableStep(es: seq<Entry>, n: nat)
    requires n < |es|
    ensures Readable(es[..n + 1]) == Readable(es[..n]) + if es[n].readable then [es[n].ev] else []
    ensures Readable(es[..n]) <= Readable(es) && Readable(es[..n + 1]) <= Readable(es)
  {
    assert es[..n + 1][..n] == es[..n];
    ReadablePrefix(es, n);
    ReadablePrefix(es, n + 1);
  }

  lemma {:induction false} ConcatLength(bs: seq<seq<Event>>)
    requires forall b <- bs :: |b| == REPLAY_BATCH
    ensures |Concat(bs)| == |bs| * REPLAY_BATCH
  {
    if bs != [] {
      ConcatLength(bs[..|bs| - 1]);
    }
  }

  /** Full batches and less than one more: the inserts are the full part of what was seen. */
  lemma FullPartOf(bs: seq<seq<Event>>, held: seq<Event>)
    requires |held| < REPLAY_BATCH && forall b <- bs :: |b| == REPLAY_BATCH
    ensures FullPart(Concat(bs) + held) == Concat(bs)
  {
    ConcatLength(bs);
    assert |Concat(bs) + held| % REPLAY_BATCH == |held|;
  }

  /** `fails(i)` is a read error of entry i other than its absence; it aborts the replay, as does
      an insert that fails: `done` entries were dealt with before. */
  method ReplayEntries(wal: WalWriter, sink: Sink, fails: nat -> bool) returns (ok: bool, corrupt: nat, done: nat)
    requires wal.Valid() && sink.Valid() && sink.seen == []
    modifies sink
    ensures done <= |wal.log.entries| && (ok ==> done == |wal.log.entries|)
    ensures |Readable(wal.log.entries[..done])| + corrupt == done
    ensures ok ==> sink.Valid() && sink.seen == Readable(wal.log.entries)
    ensures !ok ==> Concat(sink.inserts) == FullPart(Readable(wal.log.entries[..done]))
    ensures !ok ==> forall b <- sink.inserts :: |b| == REPLAY_BATCH
  {
    var log := wal.log;
    var first, last := log.FirstIndex(), log.LastIndex();
    corrupt, done := 0, 0;
    if first == 0 || last == 0 || first > last {
      return true, 0, 0;
    }
    var i: nat := first;
    while i <= last
      invariant first <= i <= last + 1 && done == i - first
      invariant sink.Valid() && sink.seen == Readable(log.entries[..done])
      invariant |sink.seen| + corrupt == done
    {
      ReadableStep(log.entries, done);
      FullPartOf(sink.inserts, sink.batch);
      if fails(i) {
        return false, corrupt, done;
      }
      if !log.entries[done].readable {
        corrupt := corrupt + 1;
      } else {
        var accepted := sink.OnEvent(log.entries[done].ev);
        if !accepted {
          return false, corrupt, done;
        }
      }
      i, done := i + 1, done + 1;
    }
    assert log.entries[..done] == log.entries;
    ok := true;
  }

  /** A replay that succeeds has inserted exactly the readable entries, in index order, in full
      batches and a last shorter one, and truncates the log if the acknowledgement reaches the
      disk; one that fails inserted the full batches of the `done` entries it had dealt with and
      leaves the log as it was for the next boot. */
  method ReplayWal(wal: WalWriter, accepts: nat -> bool, fails: nat -> bool, acks: bool)
    returns (ok: bool, inserts: seq<seq<Event>>, done: nat)
    requires wal.Valid()
    modifies wal`log
    ensures wal.Valid() && done <= |old(wal.log).entries|
    ensures WellBatched(inserts)
    ensures ok ==> Concat(inserts) == Readable(old(wal.log).entries)
    ensures ok ==> wal.log == if acks then Replayed(old(wal.log)) else old(wal.log)
    ensures !ok ==> Concat(inserts) == FullPart(Readable(old(wal.log).entries[..done])) && wal.log == old(wal.log)
  {
    var snapshot := wal.CurrentIndex();
    if snapshot == 0 {
      return true, [], 0;
    }
    var sink := new Sink(accepts);
    var corrupt;
    ok, corrupt, done := ReplayEntries(wal, sink, fails);
    if !ok {
      return false, sink.inserts, done;
    }
    assert wal.log.entries[..done] == wal.log.entries;
    FullPartOf(sink.inserts, sink.batch);
    ok := sink.Flush();
    inserts := sink.inserts;
    if !ok {
      return;
    }
    if sink.total > 0 {
      var acked := wal.Ack(snapshot, acks);
    }
  }

  /** Replay is at-least-once with a known residue: after a replay that inserted anything the
      log holds exactly its last entry, so an idle reboot inserts that one event again if it
      is readable, nothing otherwise, and changes the log no further. */
  lemma IdleRebootReinsertsTheLast(log: Log)
    requires log.Valid() && Readable(log.entries) != []
    ensures var after := Replayed(log);
      && after.Valid()
      && after.entries == log.entries[|log.entries| - 1..]
      && Readable(after.entries) == (if log.entries[|log.entries| - 1].readable then [log.Ev(log.Last())] else [])
      && Replayed(after) == after
  {
    var after := Replayed(log);
    assert after.entries == log.entries[|log.entries| - 1..];
    assert after.entries[..0] == [];
  }
}
