/** The per-visitor burst guard: tumbling one-minute counters in 256 shards. */
module BurstGuard {
  import opened Basics

  newtype Byte = x: int | 0 <= x < 256
  datatype Visitor = Visitor(head: Byte, tail: seq<Byte>)
  datatype Entry = Entry(count: nat, start: int)
  datatype Hit = Hit(visitor: Visitor, now: int)

  const WINDOW: int := MINUTE

  /** One visitor's counter after an event, and whether the event passes. */
  function Step(cap: nat, e: Option<Entry>, now: int): (Entry, bool) {
    if e.None? || now - e.value.start >= WINDOW then (Entry(1, now), true)
    else if e.value.count >= cap then (e.value, false)
    else (Entry(e.value.count + 1, e.value.start), true)
  }

  function Get(m: map<Visitor, Entry>, v: Visitor): Option<Entry> {
    if v in m then Some(m[v]) else None
  }

  /** The guard as one unsharded map. */
  function After(cap: nat, hits: seq<Hit>): map<Visitor, Entry> {
    if hits == [] then map[]
    else
      var before := After(cap, hits[..|hits| - 1]);
      var h := hits[|hits| - 1];
      before[h.visitor := Step(cap, Get(before, h.visitor), h.now).0]
  }

  function Passes(cap: nat, before: seq<Hit>, h: Hit): bool {
    Step(cap, Get(After(cap, before), h.visitor), h.now).1
  }

  /** How many of a visitor's events with lo <= now < hi passed. */
  function Admitted(cap: nat, hits: seq<Hit>, v: Visitor, lo: int, hi: int): nat {
    if hits == [] then 0
    else
      var h := hits[|hits| - 1];
      var before := hits[..|hits| - 1];
      Admitted(cap, before, v, lo, hi) + if h.visitor == v && lo <= h.now < hi && Passes(cap, before, h) then 1 else 0
  }

  ghost predicate Monotone(hits: seq<Hit>) {
    forall i, j :: 0 <= i < j < |hits| ==> hits[i].now <= hits[j].now
  }

  lemma {:induction false} WiderAdmitsMore(cap: nat, hits: seq<Hit>, v: Visitor, lo: int, hi: int, hi2: int)
    requires hi <= hi2
    ensures Admitted(cap, hits, v, lo, hi) <= Admitted(cap, hits, v, lo, hi2)
  {
    if hits != [] {
      WiderAdmitsMore(cap, hits[..|hits| - 1], v, lo, hi, hi2);
    }
  }

  /** What the visitor's counter says about the past: since the window's start at most `count`
      events passed, since one window earlier at most `cap` more, and none after its end. */
  ghost predicate Accurate(cap: nat, hits: seq<Hit>, v: Visitor) {
    var e := Get(After(cap, hits), v);
    if e.None? then forall lo, hi :: Admitted(cap, hits, v, lo, hi) == 0
    else
      && 1 <= e.value.count <= cap
      && (hits != [] ==> e.value.start <= hits[|hits| - 1].now)
      && (forall lo, hi :: lo >= e.value.start ==> Admitted(cap, hits, v, lo, hi) <= e.value.count)
      && (forall lo, hi :: lo >= e.value.start - WINDOW ==> Admitted(cap, hits, v, lo, hi) <= cap + e.value.count)
      && (forall lo, hi :: lo >= e.value.start + WINDOW ==> Admitted(cap, hits, v, lo, hi) == 0)
  }

  lemma {:induction false} AlwaysAccurate(cap: nat, hits: seq<Hit>, v: Visitor)
    requires 0 < cap && Monotone(hits)
    ensures Accurate(cap, hits, v)
  {
    if hits != [] {
      var before := hits[..|hits| - 1];
      AlwaysAccurate(cap, before, v);
      var h := hits[|hits| - 1];
      var e, f := Get(After(cap, before), v), Get(After(cap, hits), v);
      if f.Some? {
        forall lo, hi | lo >= f.value.start - WINDOW ensures Admitted(cap, hits, v, lo, hi) <= cap + f.value.count {
          assert Admitted(cap, hits, v, lo, hi) <= Admitted(cap, before, v, lo, hi) + 1;
          assert e.Some? && f.value.start != e.value.start ==> lo >= e.value.start;
        }
      }
    }
  }

  /** Any half-open minute admits at most twice the cap of one visitor's events. */
  lemma {:induction false} AnyMinuteAdmitsTwiceTheCap(cap: nat, hits: seq<Hit>, v: Visitor, lo: int)
    requires 0 < cap && Monotone(hits)
    ensures Admitted(cap, hits, v, lo, lo + WINDOW) <= 2 * cap
  {
    if hits != [] {
      var before := hits[..|hits| - 1];
      AnyMinuteAdmitsTwiceTheCap(cap, before, v, lo);
      AlwaysAccurate(cap, before, v);
    }
  }

  /** And a tumbling window at most the cap: from the counter's start on. */
  lemma TumblingWindowAdmitsTheCap(cap: nat, hits: seq<Hit>, v: Visitor, hi: int)
    requires 0 < cap && Monotone(hits) && v in After(cap, hits)
    ensures Admitted(cap, hits, v, After(cap, hits)[v].start, hi) <= cap
  {
    AlwaysAccurate(cap, hits, v);
  }

  /** When the visitor's current window opened: at the first event a minute or more after the
      window before opened. */
  function OpenedAt(hits: seq<Hit>, v: Visitor): Option<int> {
    if hits == [] then None
    else
      var before, h := OpenedAt(hits[..|hits| - 1], v), hits[|hits| - 1];
      if h.visitor == v && (before.None? || h.now - before.value >= WINDOW) then Some(h.now) else before
  }

  /** The counter is what passed since then; nothing passed after the window's end. */
  ghost predicate Counts(cap: nat, hits: seq<Hit>, v: Visitor) {
    var e := Get(After(cap, hits), v);
    && (e.None? <==> OpenedAt(hits, v).None?)
    && (e.Some? ==> e.value.start == OpenedAt(hits, v).value && hits != [] && e.value.start <= hits[|hits| - 1].now)
  }

  lemma {:induction false} AlwaysCounts(cap: nat, hits: seq<Hit>, v: Visitor)
    requires Monotone(hits)
    ensures Counts(cap, hits, v)
  {
    if hits != [] {
      AlwaysCounts(cap, hits[..|hits| - 1], v);
    }
  }

  lemma {:induction false} NothingBeyond(cap: nat, hits: seq<Hit>, v: Visitor, lo: int, hi: int)
    requires OpenedAt(hits, v).Some? ==> lo >= OpenedAt(hits, v).value + WINDOW
    ensures Admitted(cap, hits, v, lo, hi) == 0
  {
    if hits != [] {
      NothingBeyond(cap, hits[..|hits| - 1], v, lo, hi);
    }
  }

  lemma {:induction false} CounterIsTheCount(cap: nat, hits: seq<Hit>, v: Visitor, hi: int)
    requires cap > 0 && Monotone(hits) && v in After(cap, hits)
    requires forall i :: 0 <= i < |hits| ==> hits[i].now < hi
    ensures Admitted(cap, hits, v, After(cap, hits)[v].start, hi) == After(cap, hits)[v].count
  {
    var before, h := hits[..|hits| - 1], hits[|hits| - 1];
    AlwaysCounts(cap, before, v);
    if v in After(cap, before) {
      CounterIsTheCount(cap, before, v, hi);
    }
    if h.visitor == v && (v !in After(cap, before) || h.now - After(cap, before)[v].start >= WINDOW) {
      NothingBeyond(cap, before, v, h.now, hi);
    }
  }

  /** An event passes exactly when it opens a window or fewer than the cap of the visitor's events
      have passed since the current one opened. */
  lemma PassesExactly(cap: nat, hits: seq<Hit>, h: Hit)
    requires cap > 0 && Monotone(hits) && forall i :: 0 <= i < |hits| ==> hits[i].now <= h.now
    ensures var start := OpenedAt(hits, h.visitor);
      Passes(cap, hits, h) <==>
        start.None? || h.now - start.value >= WINDOW || Admitted(cap, hits, h.visitor, start.value, h.now + 1) < cap
  {
    AlwaysCounts(cap, hits, h.visitor);
    if h.visitor in After(cap, hits) {
      CounterIsTheCount(cap, hits, h.visitor, h.now + 1);
    }
  }

  class Guard {
    const cap: int
    const shards: array<map<Visitor, Entry>>
    ghost var hits: seq<Hit>

    /** The shards together are the unsharded map, each visitor in the shard of its first byte. */
    ghost predicate Valid()
      reads this, shards
    {
      && shards.Length == 256
      && (cap > 0 ==> forall v: Visitor :: Get(shards[v.head as int], v) == Get(After(cap, hits), v))
    }

    constructor (maxPerMinute: int)
      ensures Valid() && cap == maxPerMinute && hits == [] && fresh(shards)
    {
      cap := maxPerMinute;
      shards := new map<Visitor, Entry>[256](_ => map[]);
      hits := [];
    }

    /** Decides as the unsharded guard would after the same events; a guard without a cap lets
        everything pass. */
    method Allow(visitor: Visitor, now: int) returns (ok: bool)
      requires Valid()
      modifies this, shards
      ensures Valid()
      ensures cap <= 0 ==> ok
      ensures cap > 0 ==> hits == old(hits) + [Hit(visitor, now)] && ok == Passes(cap, old(hits), Hit(visitor, now))
    {
      if cap <= 0 {
        return true;
      }
      var i := visitor.head as int;
      ghost var before := hits;
      hits := hits + [Hit(visitor, now)];
      assert hits[..|hits| - 1] == before;
      if visitor !in shards[i] || now - shards[i][visitor].start >= WINDOW {
        shards[i] := shards[i][visitor := Entry(1, now)];
        return true;
      }
      var e := shards[i][visitor];
      if e.count >= cap {
        return false;
      }
      shards[i] := shards[i][visitor := Entry(e.count + 1, e.start)];
      ok := true;
    }
  }
}
