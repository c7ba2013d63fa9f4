/** The per-actor query budget: per-minute windows and lifetime caps on calls and rows. */
module Budget {
  import opened Basics

  datatype Config = Config(callsPerMin: int, rowsPerMin: int, callsPerSession: int, rowsPerSession: int,
                           distinctSitesPerMin: int, wildcardFactor: real)

  const WILDCARD: string := "t:0"

  /** A cap is off exactly when its base is: scaling down never reaches zero, which would lift
      the cap, and otherwise rounds down. */
  function ScaleCap(base: int, wildcard: bool, factor: real): (r: nat)
    ensures r > 0 <==> base > 0
    ensures base > 0 && wildcard && factor > 0.0 && base as real * factor >= 1.0 ==>
      r as real <= base as real * factor < r as real + 1.0
    ensures base > 0 && wildcard && 0.0 < factor && base as real * factor < 1.0 ==> r == 1
    ensures base > 0 && !(wildcard && factor > 0.0) ==> r == base
  {
    if base <= 0 then 0
    else if wildcard && factor > 0.0 then
      var scaled := (base as real * factor).Floor;
      if scaled < 1 then 1 else scaled
    else base
  }

  /** An actor's caps after scaling; zero switches a cap off. */
  datatype Caps = Caps(calls: nat, rows: nat, sessCalls: nat, sessRows: nat)

  function CapsFor(c: Config, wildcard: bool): (caps: Caps)
    ensures (caps.calls > 0 <==> c.callsPerMin > 0) && (caps.rows > 0 <==> c.rowsPerMin > 0)
    ensures (caps.sessCalls > 0 <==> c.callsPerSession > 0) && (caps.sessRows > 0 <==> c.rowsPerSession > 0)
    ensures !wildcard && c.callsPerMin > 0 ==> caps.calls == c.callsPerMin
    ensures !wildcard && c.rowsPerMin > 0 ==> caps.rows == c.rowsPerMin
    ensures !wildcard && c.callsPerSession > 0 ==> caps.sessCalls == c.callsPerSession
    ensures !wildcard && c.rowsPerSession > 0 ==> caps.sessRows == c.rowsPerSession
  {
    Caps(ScaleCap(c.callsPerMin, wildcard, c.wildcardFactor), ScaleCap(c.rowsPerMin, wildcard, c.wildcardFactor),
      ScaleCap(c.callsPerSession, wildcard, c.wildcardFactor), ScaleCap(c.rowsPerSession, wildcard, c.wildcardFactor))
  }

  datatype Bucket = Bucket(winStart: int, calls: nat, rows: nat, sites: set<nat>, sessCalls: nat, sessRows: nat)

  /** What one actor did: asked for a call of a tool with its own call cap, finished a call with
      some rows, touched a site, or finished a call without a result. */
  datatype Event =
    | Reserve(now: int, tool: int)
    | Charge(now: int, charged: nat)
    | Note(now: int, site: nat)
    | Fail(now: int)

  /** The bucket once its window has rolled over, if it has to. */
  function Turn(b: Option<Bucket>, now: int): Bucket {
    if b.None? then Bucket(now, 0, 0, {}, 0, 0)
    else if now - b.value.winStart >= MINUTE then b.value.(winStart := now, calls := 0, rows := 0, sites := {})
    else b.value
  }

  function CallCap(caps: Caps, tool: int): nat {
    if tool > 0 && (caps.calls == 0 || tool < caps.calls) then tool else caps.calls
  }

  predicate Allowed(caps: Caps, b: Bucket, tool: int) {
    && (CallCap(caps, tool) > 0 ==> b.calls < CallCap(caps, tool))
    && (caps.rows > 0 ==> b.rows < caps.rows)
    && (caps.sessCalls > 0 ==> b.sessCalls < caps.sessCalls)
    && (caps.sessRows > 0 ==> b.sessRows < caps.sessRows)
  }

  function Step(caps: Caps, b: Option<Bucket>, e: Event): Option<Bucket> {
    if e.Fail? then b
    else
      var t := Turn(b, e.now);
      match e
      case Reserve(_, tool) =>
        Some(if Allowed(caps, t, tool) then t.(calls := t.calls + 1, sessCalls := t.sessCalls + 1) else t)
      case Charge(_, rows) => Some(t.(rows := t.rows + rows, sessRows := t.sessRows + rows))
      case Note(_, site) => Some(t.(sites := t.sites + {site}))
      case Fail(_) => b
  }

  function After(caps: Caps, past: seq<Event>): Option<Bucket> {
    if past == [] then None else Step(caps, After(caps, past[..|past| - 1]), past[|past| - 1])
  }

  predicate Admitted(caps: Caps, past: seq<Event>, e: Event) {
    e.Reserve? && Allowed(caps, Turn(After(caps, past), e.now), e.tool)
  }

  /** The two things that are metered. */
  datatype Meter = Calls | Rows

  function Weight(caps: Caps, past: seq<Event>, e: Event, m: Meter): nat {
    match m
    case Calls => if Admitted(caps, past, e) then 1 else 0
    case Rows => if e.Charge? then e.charged else 0
  }

  /** What an actor used with lo <= now < hi. */
  function Used(caps: Caps, past: seq<Event>, m: Meter, lo: int, hi: int): nat {
    if past == [] then 0
    else
      var before, e := past[..|past| - 1], past[|past| - 1];
      Used(caps, before, m, lo, hi) + if lo <= e.now < hi then Weight(caps, before, e, m) else 0
  }

  /** What an event does to the number of calls in flight. */
  function InFlight(caps: Caps, past: seq<Event>, e: Event): int {
    if Admitted(caps, past, e) then 1 else if e.Charge? || e.Fail? then -1 else 0
  }

  /** The admitted calls that have not finished. */
  function Unfinished(caps: Caps, past: seq<Event>): int {
    if past == [] then 0
    else
      var before, e := past[..|past| - 1], past[|past| - 1];
      Unfinished(caps, before) + InFlight(caps, before, e)
  }

  /** The clock is monotone, a call finishes only after it was admitted and with at most r rows,
      and at most n are unfinished at a time. */
  ghost predicate Orderly(caps: Caps, past: seq<Event>, n: nat, r: nat) {
    past == [] ||
    (var before, e := past[..|past| - 1], past[|past| - 1];
     && Orderly(caps, before, n, r)
     && (before != [] ==> before[|before| - 1].now <= e.now)
     && (e.Charge? ==> e.charged <= r)
     && 0 <= Unfinished(caps, past) <= n)
  }

  predicate Limited(caps: Caps, m: Meter) {
    if m.Calls? then caps.calls > 0 else caps.rows > 0
  }

  /** What one window can use. Calls stop at their cap; rows are known only when a call
      finishes, so the calls in flight when the cap is reached all still add theirs. */
  function Bound(caps: Caps, m: Meter, n: nat, r: nat): nat
    requires Limited(caps, m)
  {
    if m.Calls? then caps.calls else caps.rows - 1 + n * r
  }

  function Reading(b: Bucket, m: Meter): nat {
    if m.Calls? then b.calls else b.rows
  }

  /** A meter never exceeds its bound, and rows leave room for every call in flight. */
  ghost predicate InBounds(caps: Caps, past: seq<Event>, n: nat, r: nat) {
    Within(caps, After(caps, past), Unfinished(caps, past), n, r)
  }

  lemma Scale(u: int, n: int, r: nat)
    requires u <= n
    ensures u * r <= n * r && (u - 1) * r == u * r - r && (u + 1) * r == u * r + r
  {
    assert 0 <= (n - u) * r == n * r - u * r;
  }

  lemma {:induction false} AlwaysInBounds(caps: Caps, past: seq<Event>, n: nat, r: nat)
    requires Orderly(caps, past, n, r)
    ensures InBounds(caps, past, n, r)
  {
    if past != [] {
      var before, e := past[..|past| - 1], past[|past| - 1];
      AlwaysInBounds(caps, before, n, r);
      var u, v := Unfinished(caps, before), Unfinished(caps, past);
      Scale(u, n, r);
      Scale(v, n, r);
      StepInBounds(caps, After(caps, before), e, u, v, n, r);
    }
  }

  /** A bucket within its limits, with u calls unfinished. */
  ghost predicate Within(caps: Caps, b: Option<Bucket>, u: int, n: nat, r: nat) {
    b.Some? ==>
      && (caps.calls > 0 ==> b.value.calls <= caps.calls)
      && (caps.rows > 0 ==> b.value.rows + u * r <= caps.rows - 1 + n * r)
      && (caps.sessCalls > 0 ==> b.value.sessCalls <= caps.sessCalls)
      && (caps.sessRows > 0 ==> b.value.sessRows + u * r <= caps.sessRows - 1 + n * r)
  }

  /** One event keeps a bucket within its limits: an admitted call finds room for all its rows, a
      charge uses up what its call had reserved. */
  lemma StepInBounds(caps: Caps, b: Option<Bucket>, e: Event, u: int, v: int, n: nat, r: nat)
    requires Within(caps, b, u, n, r) && u <= n && v <= n && u * r <= n * r && v * r <= n * r
    requires (u - 1) * r == u * r - r && (u + 1) * r == u * r + r && (e.Charge? ==> e.charged <= r)
    requires var admitted := e.Reserve? && Allowed(caps, Turn(b, e.now), e.tool);
      v == u + if admitted then 1 else if e.Charge? || e.Fail? then -1 else 0
    ensures Within(caps, Step(caps, b, e), v, n, r)
  {
    match e
    case Reserve(now, tool) =>
      if !Allowed(caps, Turn(b, now), tool) {
        assert v == u;
      }
    case Charge(_, rows) => assert v * r == u * r - r;
    case Note(_, _) => assert v == u;
    case Fail(_) => assert v * r == u * r - r;
  }

  /** What a bucket says of the past: since its window began everything counted is on the meter,
      and the window before used no more than the bound. */
  ghost predicate Accurate(caps: Caps, past: seq<Event>, m: Meter, n: nat, r: nat)
    requires Limited(caps, m)
  {
    var b := After(caps, past);
    if b.None? then forall lo, hi :: Used(caps, past, m, lo, hi) == 0
    else
      var start, bound := b.value.winStart, Bound(caps, m, n, r);
      && (past != [] ==> start <= past[|past| - 1].now)
      && (forall lo, hi :: lo >= start ==> Used(caps, past, m, lo, hi) <= Reading(b.value, m))
      && (forall lo, hi :: lo >= start - MINUTE ==> Used(caps, past, m, lo, hi) <= bound + Reading(b.value, m))
      && (forall lo, hi :: lo >= start + MINUTE ==> Used(caps, past, m, lo, hi) == 0)
  }

  lemma {:induction false} AlwaysAccurate(caps: Caps, past: seq<Event>, m: Meter, n: nat, r: nat)
    requires Limited(caps, m) && Orderly(caps, past, n, r)
    ensures Accurate(caps, past, m, n, r)
  {
    if past != [] {
      var before, e := past[..|past| - 1], past[|past| - 1];
      AlwaysAccurate(caps, before, m, n, r);
      AlwaysInBounds(caps, before, n, r);
      ReadingBound(caps, before, m, n, r);
      forall lo, hi
        ensures Used(caps, past, m, lo, hi) ==
          Used(caps, before, m, lo, hi) + if lo <= e.now < hi then Weight(caps, before, e, m) else 0
      {}
    }
  }

  lemma ReadingBound(caps: Caps, past: seq<Event>, m: Meter, n: nat, r: nat)
    requires Limited(caps, m) && Orderly(caps, past, n, r)
    ensures After(caps, past).Some? ==> Reading(After(caps, past).value, m) <= Bound(caps, m, n, r)
  {
    AlwaysInBounds(caps, past, n, r);
    Scale(0, Unfinished(caps, past), r);
  }

  /** Any half-open minute uses at most twice the window's bound, wherever it lies across the
      windows. */
  lemma {:induction false} AnyMinuteUsesTwiceTheBound(caps: Caps, past: seq<Event>, m: Meter, n: nat, r: nat, lo: int)
    requires Limited(caps, m) && Orderly(caps, past, n, r)
    ensures Used(caps, past, m, lo, lo + MINUTE) <= 2 * Bound(caps, m, n, r)
  {
    if past != [] {
      AnyMinuteUsesTwiceTheBound(caps, past[..|past| - 1], m, n, r, lo);
      AlwaysAccurate(caps, past, m, n, r);
      ReadingBound(caps, past, m, n, r);
    }
  }

  /** And the window that is open now at most the bound. */
  lemma WindowUsesTheBound(caps: Caps, past: seq<Event>, m: Meter, n: nat, r: nat, hi: int)
    requires Limited(caps, m) && Orderly(caps, past, n, r) && After(caps, past).Some?
    ensures Used(caps, past, m, After(caps, past).value.winStart, hi) <= Bound(caps, m, n, r)
  {
    AlwaysAccurate(caps, past, m, n, r);
    ReadingBound(caps, past, m, n, r);
  }

  function Spent(b: Option<Bucket>, m: Meter): nat {
    if b.None? then 0 else if m.Calls? then b.value.sessCalls else b.value.sessRows
  }

  lemma {:induction false} NothingUnspent(caps: Caps, past: seq<Event>, m: Meter, lo: int, hi: int)
    ensures Used(caps, past, m, lo, hi) <= Spent(After(caps, past), m)
  {
    if past != [] {
      NothingUnspent(caps, past[..|past| - 1], m, lo, hi);
    }
  }

  /** The lifetime caps hold over the whole run, with the same slack for the rows in flight. */
  lemma LifetimeIsBounded(caps: Caps, past: seq<Event>, n: nat, r: nat, lo: int, hi: int)
    requires Orderly(caps, past, n, r)
    ensures caps.sessCalls > 0 ==> Used(caps, past, Calls, lo, hi) <= caps.sessCalls
    ensures caps.sessRows > 0 ==> Used(caps, past, Rows, lo, hi) <= caps.sessRows - 1 + n * r
  {
    NothingUnspent(caps, past, Calls, lo, hi);
    NothingUnspent(caps, past, Rows, lo, hi);
    AlwaysInBounds(caps, past, n, r);
    Scale(0, Unfinished(caps, past), r);
    Scale(0, n, r);
  }

  /** The row bound is attained: with a cap of one row, two calls in flight both charge in full. */
  lemma SlackIsReal()
    ensures exists caps: Caps, past: seq<Event> ::
      caps.rows == 1 && Orderly(caps, past, 2, 7) && After(caps, past).Some? &&
        After(caps, past).value.rows == 1 - 1 + 2 * 7
  {
    var caps := Caps(0, 1, 0, 0);
    var p1 := OneMore(caps, [], Reserve(0, 0), 2, 7);
    var p2 := OneMore(caps, p1, Reserve(0, 0), 2, 7);
    var p3 := OneMore(caps, p2, Charge(0, 7), 2, 7);
    var p4 := OneMore(caps, p3, Charge(0, 7), 2, 7);
    assert After(caps, p4).value.rows == 14;
  }

  lemma OneMore(caps: Caps, past: seq<Event>, e: Event, n: nat, r: nat) returns (more: seq<Event>)
    requires Orderly(caps, past, n, r) && e.now == 0 && (past == [] || past[|past| - 1].now == 0)
    requires e.Charge? ==> e.charged <= r
    requires 0 <= Unfinished(caps, past) + InFlight(caps, past, e) <= n
    ensures more != [] && more[|more| - 1] == e && After(caps, more) == Step(caps, After(caps, past), e)
    ensures Orderly(caps, more, n, r)
    ensures Unfinished(caps, more) == Unfinished(caps, past) + InFlight(caps, past, e)
  {
    more := past + [e];
    assert more[..|more| - 1] == past;
  }

  lemma Appended(caps: Caps, past: seq<Event>, e: Event)
    ensures After(caps, past + [e]) == Step(caps, After(caps, past), e)
  {
    assert (past + [e])[..|past|] == past;
  }

  /** Whole seconds until the window is over, but at least one. */
  function RetryAfter(winStart: int, now: int): (s: nat)
    ensures s >= 1 && now + (s + 1) * SECOND > winStart + MINUTE
    ensures s > 1 ==> now + s * SECOND <= winStart + MINUTE
  {
    var left := MINUTE - (now - winStart);
    if left < SECOND then 1 else left / SECOND
  }

  /** The caps in the order the source checks them. */
  method Decide(caps: Caps, b: Bucket, perToolCallCap: int) returns (ok: bool)
    ensures ok == Allowed(caps, b, perToolCallCap)
  {
    var callCap := caps.calls;
    if perToolCallCap > 0 && (callCap == 0 || perToolCallCap < callCap) {
      callCap := perToolCallCap;
    }
    if callCap > 0 && b.calls >= callCap {
      return false;
    } else if caps.rows > 0 && b.rows >= caps.rows {
      return false;
    } else if caps.sessCalls > 0 && b.sessCalls >= caps.sessCalls {
      return false;
    } else if caps.sessRows > 0 && b.sessRows >= caps.sessRows {
      return false;
    }
    ok := true;
  }

  class BudgetSet {
    const cfg: Config
    var m: map<string, Bucket>
    ghost var past: map<string, seq<Event>>

    ghost function Of(key: string): seq<Event>
      reads this
    {
      if key in past then past[key] else []
    }

    /** Every actor's bucket is what that actor's own events made it. */
    ghost predicate Valid()
      reads this
    {
      forall k :: Agrees(k)
    }

    ghost predicate Agrees(k: string)
      reads this
    {
      (if k in m then Some(m[k]) else None) == After(CapsFor(cfg, k == WILDCARD), Of(k))
    }

    constructor (config: Config)
      ensures Valid() && cfg == config && past == map[]
    {
      cfg := config;
      m := map[];
      past := map[];
    }

    /** The source's `get`, which every operation starts with. */
    method Open(key: string, now: int) returns (b: Bucket)
      ensures b == Turn(if key in m then Some(m[key]) else None, now)
    {
      if key !in m {
        return Bucket(now, 0, 0, {}, 0, 0);
      }
      b := m[key];
      if now - b.winStart >= MINUTE {
        b := b.(winStart := now, calls := 0, rows := 0, sites := {});
      }
    }

    /** Files the bucket the event makes. */
    method Put(key: string, ghost e: Event, b: Bucket)
      requires Valid() && Step(CapsFor(cfg, key == WILDCARD), if key in m then Some(m[key]) else None, e) == Some(b)
      modifies this
      ensures Valid() && m == old(m)[key := b] && past == old(past)[key := old(Of(key)) + [e]]
    {
      assert Agrees(key);
      Appended(CapsFor(cfg, key == WILDCARD), Of(key), e);
      m := m[key := b];
      past := past[key := Of(key) + [e]];
      forall k ensures Agrees(k) {
        assert old(Agrees(k));
      }
    }

    /** Admits a call exactly when no cap of the actor is used up, and leaves every other actor
        alone. A refused caller is told how long the window still lasts. */
    method Reserve(key: string, wildcard: bool, perToolCallCap: int, now: int) returns (ok: bool, retryAfter: nat)
      requires Valid() && wildcard == (key == WILDCARD)
      modifies this
      ensures Valid() && past == old(past)[key := old(Of(key)) + [Event.Reserve(now, perToolCallCap)]]
      ensures ok == Admitted(CapsFor(cfg, wildcard), old(Of(key)), Event.Reserve(now, perToolCallCap))
      ensures ok ==> retryAfter == 0
      ensures key in m && m == old(m)[key := m[key]]
      ensures !ok ==> retryAfter == RetryAfter(m[key].winStart, now)
    {
      ghost var e := Event.Reserve(now, perToolCallCap);
      assert Agrees(key);
      var b := Open(key, now);
      ok := Decide(CapsFor(cfg, wildcard), b, perToolCallCap);
      if ok {
        Put(key, e, b.(calls := b.calls + 1, sessCalls := b.sessCalls + 1));
        retryAfter := 0;
      } else {
        Put(key, e, b);
        retryAfter := RetryAfter(b.winStart, now);
      }
    }

    method Charge(key: string, wildcard: bool, rows: nat, now: int) returns (windowRows: nat, rowCap: nat)
      requires Valid() && wildcard == (key == WILDCARD)
      modifies this
      ensures Valid() && past == old(past)[key := old(Of(key)) + [Event.Charge(now, rows)]]
      ensures key in m && windowRows == m[key].rows && rowCap == CapsFor(cfg, wildcard).rows
      ensures m == old(m)[key := m[key]]
    {
      var b := Open(key, now);
      b := b.(rows := b.rows + rows, sessRows := b.sessRows + rows);
      Put(key, Event.Charge(now, rows), b);
      return b.rows, ScaleCap(cfg.rowsPerMin, wildcard, cfg.wildcardFactor);
    }

    method NoteSite(key: string, wildcard: bool, siteID: nat, now: int) returns (distinct: nat, threshold: nat)
      requires Valid() && wildcard == (key == WILDCARD)
      modifies this
      ensures Valid() && past == old(past)[key := old(Of(key)) + [Note(now, siteID)]]
      ensures key in m && siteID in m[key].sites && distinct == |m[key].sites|
      ensures m == old(m)[key := m[key]]
    {
      var b := Open(key, now);
      b := b.(sites := b.sites + {siteID});
      Put(key, Note(now, siteID), b);
      return |b.sites|, ScaleCap(cfg.distinctSitesPerMin, wildcard, cfg.wildcardFactor);
    }
  }
}
