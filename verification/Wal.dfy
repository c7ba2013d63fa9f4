/** The write-ahead log: the contract assumed of the segmented log underneath, and the
    writer that assigns indexes, acknowledges, caps and replays. */
module Wal {

  /** One enriched event. `id` tells two requests apart even when they carry equal data;
      `bytes` is the consumer's size estimate of the row. */
  datatype Event = Event(id: nat, bytes: nat)

  /** A log entry; `readable` is false once it no longer reads back or decodes. */
  datatype Entry = Entry(ev: Event, readable: bool)

  /** The segmented log. Indexes are absolute and consecutive; every entry up to `synced`
      survives a crash. A log that never held an entry starts at index 1. */
  datatype Log = Log(first: nat, entries: seq<Entry>, synced: nat) {

    function Last(): int {
      first - 1 + |entries|
    }

    predicate Valid() {
      && first >= 1
      && (entries == [] ==> first == 1)
      && synced <= Last()
    }

    predicate Has(i: int) {
      first <= i <= Last()
    }

    function Ev(i: int): Event
      requires Has(i)
    {
      entries[i - first].ev
    }

    /** Entry i is in the log and carries e. */
    predicate Holds(i: int, e: Event) {
      Has(i) && Ev(i) == e
    }

    /** The log's own FirstIndex and LastIndex: both 0 while it is empty. */
    function FirstIndex(): nat {
      if entries == [] then 0 else first
    }

    function LastIndex(): int {
      if entries == [] then 0 else Last()
    }

    function Written(e: Event): Log {
      this.(entries := entries + [Entry(e, true)])
    }

    function AllSynced(): Log
      requires Valid()
    {
      this.(synced := Last())
    }

    /** Every entry up to and including index t gone; the log itself when t is below it. */
    function Without(t: int): Log
      requires t <= Last()
    {
      if t < first then this else Log(t + 1, entries[t + 1 - first..], synced)
    }

    function Damaged(i: int): Log
      requires Has(i)
    {
      this.(entries := entries[i - first := entries[i - first].(readable := false)])
    }

    /** What a crash leaves: the entries up to k. Losing all of them restarts the indexes. */
    function Cut(k: int): Log
      requires first - 1 <= k <= Last()
    {
      if k < first then Log(1, [], 0) else Log(first, entries[..k + 1 - first], if synced <= k then synced else k)
    }
  }

  /** The highest index an acknowledgement through `through` may remove: the log never
      gives up its last entry. */
  function AckLimit(log: Log, through: nat): int {
    if through >= log.LastIndex() then log.LastIndex() - 1 else through
  }

  function Acked(log: Log, through: nat): Log
    requires log.Valid()
  {
    if log.entries == [] then log else log.Without(AckLimit(log, through))
  }

  const CAP_STEP := 1000

  /** How far the size cap truncates: a thousand entries, but never the last two. */
  function CapTarget(log: Log): int {
    if log.first + CAP_STEP >= log.Last() then log.Last() - 1 else log.first + CAP_STEP
  }

  function Capped(log: Log): Log
    requires log.Valid()
  {
    if log.entries == [] || CapTarget(log) <= log.first then log else log.Without(CapTarget(log) - 1)
  }

  /** Removing a prefix keeps every other index where it was. */
  lemma WithoutKeepsTheRest(log: Log, t: int)
    requires log.Valid() && t < log.Last()
    ensures log.Without(t).Valid() && log.Without(t).Last() == log.Last()
    ensures forall i :: log.Without(t).Has(i) <==> log.Has(i) && i > t
    ensures forall i :: log.Without(t).Has(i) ==>
      log.Without(t).entries[i - log.Without(t).first] == log.entries[i - log.first]
  {
  }

  /** An acknowledgement removes exactly the entries at or below both its index and the
      last index but one, so what was not acknowledged stays and the log never empties. */
  lemma AckRemovesExactly(log: Log, through: nat)
    requires log.Valid()
    ensures Acked(log, through).Valid() && Acked(log, through).Last() == log.Last()
    ensures forall i :: Acked(log, through).Has(i) <==> log.Has(i) && (i > through || i == log.Last())
    ensures forall i, e :: Acked(log, through).Holds(i, e) ==> log.Holds(i, e)
    ensures forall i, e :: log.Holds(i, e) && (i > through || i == log.Last()) ==> Acked(log, through).Holds(i, e)
    ensures log.entries != [] ==> Acked(log, through).entries != []
  {
    if log.entries != [] {
      WithoutKeepsTheRest(log, AckLimit(log, through));
    }
  }

  /** The size cap removes at most a thousand entries from the front and leaves the last two. */
  lemma CapRemovesAFront(log: Log)
    requires log.Valid()
    ensures Capped(log).Valid() && Capped(log).Last() == log.Last()
    ensures log.first <= Capped(log).first <= log.first + CAP_STEP
    ensures Capped(log) != log ==> |Capped(log).entries| >= 2
    ensures forall i :: Capped(log).Has(i) <==> log.Has(i) && i >= Capped(log).first
    ensures forall i, e :: log.Holds(i, e) && i >= Capped(log).first ==> Capped(log).Holds(i, e)
    ensures forall i, e :: Capped(log).Holds(i, e) ==> log.Holds(i, e)
  {
    if log.entries != [] && CapTarget(log) > log.first {
      WithoutKeepsTheRest(log, CapTarget(log) - 1);
    }
  }

  /** How much the size cap removes: a thousand entries, or all but the last two of a shorter log,
      and nothing from a log of at most two. */
  lemma CapRemovesExactly(log: Log)
    requires log.Valid()
    ensures var n, left := |log.entries|, |Capped(log).entries|;
      left == if n <= 2 then n else if n <= CAP_STEP + 2 then 2 else n - CAP_STEP
    ensures Capped(log).entries == log.entries[|log.entries| - |Capped(log).entries|..]
    ensures Capped(log).synced == log.synced
  {
    if log.entries != [] && CapTarget(log) > log.first {
      assert Capped(log) == log.Without(CapTarget(log) - 1);
    } else {
      assert log.entries[0..] == log.entries;
    }
  }

  /** The writer's own state beside the log. */
  class WalWriter {
    var log: Log
    var nextIdx: nat

    ghost predicate Valid()
      reads this
    {
      log.Valid() && nextIdx == log.Last() + 1
    }

    constructor Open(found: Log)
      requires found.Valid()
      ensures Valid() && log == found
    {
      log := found;
      nextIdx := if found.entries == [] then 1 else found.first + |found.entries|;
    }

    /** `encodes` and `writes` are the outcomes of the gob encoder and of the log's Write. */
    method Append(ev: Event, encodes: bool, writes: bool) returns (ok: bool)
      requires Valid()
      modifies this
      ensures Valid()
      ensures ok == (encodes && writes)
      ensures log == if ok then old(log).Written(ev) else old(log)
      ensures ok ==> log.Holds(log.Last(), ev)
    {
      if !encodes || !writes {
        return false;
      }
      log := log.Written(ev);
      nextIdx := nextIdx + 1;
      ok := true;
    }

    method CurrentIndex() returns (i: nat)
      requires Valid()
      ensures i == log.Last()
      ensures i == 0 <==> log.entries == []
    {
      i := nextIdx - 1;  // nextIdx starts at last + 1, so it is never 0
    }

    /** The log's TruncateFront: refuses an index outside the log, otherwise makes i the first
        unless the disk fails (`up`). */
    method TruncateFront(i: nat, up: bool) returns (ok: bool)
      requires Valid()
      modifies this`log
      ensures Valid()
      ensures ok == (up && log.entries != [] && old(log).Has(i))
      ensures log == if ok then old(log).Without(i - 1) else old(log)
    {
      if !up || log.entries == [] || i < log.first || i > log.first - 1 + |log.entries| {
        return false;
      }
      log := Log(i, log.entries[i - log.first..], log.synced);
      assert log == old(log).Without(i - 1) by {
        assert old(log).entries[0..] == old(log).entries;
      }
      ok := true;
    }

    method Ack(throughIndex: nat, up: bool) returns (ok: bool)
      requires Valid()
      modifies this`log
      ensures Valid()
      ensures log == if throughIndex == 0 || !up then old(log) else Acked(old(log), throughIndex)
      ensures ok <==>
        || throughIndex == 0 || log.entries == []
        || (AckLimit(old(log), throughIndex) == 0 && throughIndex >= old(log).LastIndex())
        || (up && AckLimit(old(log), throughIndex) + 1 >= old(log).first)
    {
      if throughIndex == 0 {
        return true;
      }
      var last := log.LastIndex();
      var through: int := throughIndex;
      if through >= last {
        if last == 0 {
          return true;
        }
        through := last - 1;
        if through == 0 {
          return true;
        }
      }
      ok := TruncateFront(through + 1, up);
    }

    /** A nil Sync makes everything written so far durable; a failed one promises nothing. */
    method Sync(ok: bool)
      requires Valid()
      modifies this`log
      ensures Valid()
      ensures log == if ok then old(log).AllSynced() else old(log)
    {
      if ok {
        log := log.(synced := log.first - 1 + |log.entries|);
      }
    }

    method EnforceSizeCap(size: nat, maxBytes: nat, up: bool)
      requires Valid()
      modifies this`log
      ensures Valid()
      ensures log == if size <= maxBytes || !up then old(log) else Capped(old(log))
    {
      if size <= maxBytes {
        return;
      }
      var first := log.FirstIndex();
      if first == 0 {
        return;
      }
      var target: int := first + CAP_STEP;
      var last := log.LastIndex();
      if target >= last && last > 0 {
        target := last - 1;
      }
      if target <= first {
        return;
      }
      var ok := TruncateFront(target, up);
    }
  }
}
