/** The per-account login lockout: a bounded map of failure counters. */
module Lockout {
  import opened Basics

  datatype Config = Config(maxFails: int, decay: int, lockout: int, maxTracked: int)

  /** The configuration with the constructor's defaults filled in. */
  function WithDefaults(c: Config): (r: Config)
    ensures Sound(r) && (Sound(c) ==> r == c)
    ensures r.maxFails == c.maxFails || (c.maxFails <= 0 && r.maxFails == 10)
    ensures r.decay == c.decay || (c.decay <= 0 && r.decay == 15 * 60 * SECOND)
    ensures r.lockout == c.lockout || (c.lockout <= 0 && r.lockout == 5 * 60 * SECOND)
    ensures r.maxTracked == c.maxTracked || (c.maxTracked <= 0 && r.maxTracked == 10_000)
  {
    Config(
      if c.maxFails <= 0 then 10 else c.maxFails,
      if c.decay <= 0 then 15 * MINUTE else c.decay,
      if c.lockout <= 0 then 5 * MINUTE else c.lockout,
      if c.maxTracked <= 0 then 10_000 else c.maxTracked)
  }

  predicate Sound(c: Config) {
    c.maxFails > 0 && c.decay > 0 && c.lockout > 0 && c.maxTracked > 0
  }

  /** `lockedUntil` is None while the field holds its zero time, which every clock read is after. */
  datatype Entry = Entry(firstFail: int, failCount: nat, lockedUntil: Option<int>)

  predicate Locked(e: Option<Entry>, now: int) {
    e.Some? && e.value.lockedUntil.Some? && now < e.value.lockedUntil.value
  }

  predicate Stale(c: Config, e: Entry, now: int) {
    now - e.firstFail > c.decay
  }

  predicate Evictable(c: Config, e: Entry, now: int) {
    (e.lockedUntil.None? || now > e.lockedUntil.value) && Stale(c, e, now)
  }

  /** The counter after one more failure. */
  function Counted(c: Config, e: Option<Entry>, now: int): Entry {
    var from := if e.None? || Stale(c, e.value, now) then Entry(now, 0, None) else e.value;
    var n := from.failCount + 1;
    Entry(from.firstFail, n, if n >= c.maxFails then Some(now + c.lockout) else from.lockedUntil)
  }

  /** What is known of the past: a failed attempt that was let through at `checked` and recorded
      at `at`, or a success. */
  datatype Event = Failed(key: string, checked: int, at: int) | Succeeded(key: string)

  function Get(m: map<string, Entry>, k: string): Option<Entry> {
    if k in m then Some(m[k]) else None
  }

  /** The tracker that never evicts nor forgets a counter by itself. */
  function After(c: Config, events: seq<Event>): map<string, Entry> {
    if events == [] then map[]
    else
      var before := After(c, events[..|events| - 1]);
      match events[|events| - 1]
      case Succeeded(k) => before - {k}
      case Failed(k, _, at) => before[k := Counted(c, Get(before, k), at)]
  }

  /** The failures of k with lo <= at <= hi since its last success. */
  function Failures(events: seq<Event>, k: string, lo: int, hi: int): nat {
    if events == [] then 0
    else
      var rest := Failures(events[..|events| - 1], k, lo, hi);
      match events[|events| - 1]
      case Succeeded(k2) => if k == k2 then 0 else rest
      case Failed(k2, _, at) => rest + if k == k2 && lo <= at <= hi then 1 else 0
  }

  /** No failure in the events is later than t. */
  ghost predicate Until(events: seq<Event>, t: int) {
    forall i :: 0 <= i < |events| && events[i].Failed? ==> events[i].at <= t
  }

  /** Attempts are checked, then recorded, one after the other, and no attempt gets past an
      active lock. */
  ghost predicate Sequential(c: Config, events: seq<Event>) {
    events == [] ||
    (var before := events[..|events| - 1];
     var e := events[|events| - 1];
     && Sequential(c, before)
     && (e.Failed? ==> e.checked <= e.at && Until(before, e.checked))
     && (e.Failed? ==> !Locked(Get(After(c, before), e.key), e.checked)))
  }

  function Bound(c: Config): int
    requires Sound(c)
  {
    c.maxFails + c.decay / c.lockout
  }

  lemma QuotientBounds(n: int, d: int, m: int)
    requires d > 0 && n * d <= m
    ensures n <= m / d
  {
    var q := m / d;
    assert (q + 1 - n) * d == q * d + d - n * d > 0;
    assert q + 1 - n > 0;
  }

  /** What k's counter says about the past: it started no later than the latest failure, each
      failure past the threshold waited out one more lock, and it holds every failure since it
      started. */
  ghost predicate Accurate(c: Config, events: seq<Event>, k: string)
    requires Sound(c)
  {
    var e := Get(After(c, events), k);
    if e.None? then forall lo, hi :: Failures(events, k, lo, hi) == 0
    else
      var first, n := e.value.firstFail, e.value.failCount;
      && Shapely(c, e.value)
      && (forall t :: Until(events, t) ==> first <= t)
      && (forall lo, hi :: lo > first + c.decay ==> Failures(events, k, lo, hi) == 0)
      && (forall lo, hi :: lo >= first ==> Failures(events, k, lo, hi) <= n)
      && (forall lo, hi :: lo >= first - c.decay ==> Failures(events, k, lo, hi) <= Bound(c) + n)
  }

  ghost predicate Spaced(c: Config, e: Entry) {
    && e.lockedUntil.Some?
    && (e.failCount - c.maxFails) * c.lockout <= e.lockedUntil.value - c.lockout - e.firstFail <= c.decay
  }

  /** One more failure on a live counter keeps the spacing. */
  lemma CountedSpaced(c: Config, e: Entry, checked: int, at: int)
    requires Sound(c) && e.failCount + 1 >= c.maxFails && e.firstFail <= checked <= at && !Stale(c, e, at)
    requires e.failCount >= c.maxFails ==> Spaced(c, e) && e.lockedUntil.value <= checked
    ensures Spaced(c, Counted(c, Some(e), at)) && e.failCount + 1 <= Bound(c)
  {
    var n := e.failCount + 1 - c.maxFails;
    if n > 0 {
      assert n * c.lockout == (n - 1) * c.lockout + c.lockout;
    }
    QuotientBounds(n, c.lockout, c.decay);
  }

  lemma {:induction false} AlwaysAccurate(c: Config, events: seq<Event>, k: string)
    requires Sound(c) && Sequential(c, events)
    ensures Accurate(c, events, k)
  {
    if events != [] {
      var before := events[..|events| - 1];
      AlwaysAccurate(c, before, k);
      assert forall t :: Until(events, t) ==> Until(before, t);
      var ev := events[|events| - 1];
      if ev.Failed? && ev.key == k {
        FailureKeepsAccurate(c, before, ev);
        assert events == before + [ev];
      } else if ev.key == k {
        assert forall lo, hi :: Failures(events, k, lo, hi) == 0;
      } else {
        assert forall lo, hi :: Failures(events, k, lo, hi) == Failures(before, k, lo, hi);
      }
    }
  }

  /** What the counter after one more failure is, and how the counts of failures grew. */
  lemma OneMoreFailure(c: Config, events: seq<Event>, k: string, checked: int, at: int)
    ensures After(c, events + [Failed(k, checked, at)]) ==
      After(c, events)[k := Counted(c, Get(After(c, events), k), at)]
    ensures forall lo, hi ::
      Failures(events + [Failed(k, checked, at)], k, lo, hi) ==
        Failures(events, k, lo, hi) + if lo <= at <= hi then 1 else 0
  {
    assert (events + [Failed(k, checked, at)])[..|events|] == events;
  }

  /** The bound on a counter's length and the spacing of its locks. */
  ghost predicate Shapely(c: Config, e: Entry)
    requires Sound(c)
  {
    && 1 <= e.failCount <= Bound(c)
    && (e.failCount < c.maxFails ==> e.lockedUntil.None?)
    && (e.failCount >= c.maxFails ==> Spaced(c, e))
  }

  lemma CountedShapely(c: Config, e: Option<Entry>, checked: int, at: int)
    requires Sound(c) && checked <= at && (e.Some? ==> Shapely(c, e.value) && e.value.firstFail <= checked)
    requires !Locked(e, checked)
    ensures Shapely(c, Counted(c, e, at)) && Counted(c, e, at).firstFail <= at
  {
    QuotientBounds(0, c.lockout, c.decay);
    if e.Some? && !Stale(c, e.value, at) {
      if e.value.failCount + 1 >= c.maxFails {
        CountedSpaced(c, e.value, checked, at);
      }
    } else {
      assert Counted(c, e, at).failCount == 1;
    }
  }

  lemma FailureKeepsAccurate(c: Config, before: seq<Event>, ev: Event)
    requires Sound(c) && ev.Failed? && Accurate(c, before, ev.key)
    requires ev.checked <= ev.at && Until(before, ev.checked) && !Locked(Get(After(c, before), ev.key), ev.checked)
    ensures Accurate(c, before + [ev], ev.key)
  {
    var events, k := before + [ev], ev.key;
    var e := Get(After(c, before), k);
    OneMoreFailure(c, before, k, ev.checked, ev.at);
    CountedShapely(c, e, ev.checked, ev.at);
    forall t | Until(events, t) ensures ev.at <= t {
      assert events[|before|] == ev;
    }
  }

  /** However the attempts fall, at most 2 * (maxFails + decay / lockout) failures in a row, with
      no success between them, get through in any stretch of one decay time. */
  lemma {:induction false} FailuresAreBounded(c: Config, events: seq<Event>, k: string, lo: int, hi: int)
    requires Sound(c) && Sequential(c, events) && hi <= lo + c.decay
    ensures Failures(events, k, lo, hi) <= 2 * Bound(c)
  {
    AlwaysAccurate(c, events, k);
    if events != [] {
      FailuresAreBounded(c, events[..|events| - 1], k, lo, hi);
      var ev := events[|events| - 1];
      if ev.Failed? && ev.key == k {
        var before := events[..|events| - 1];
        AlwaysAccurate(c, before, k);
        assert After(c, events)[k].firstFail <= ev.at;
      }
    } else {
      QuotientBounds(0, c.lockout, c.decay);
    }
  }

  /** A lock that is active at `now` was active, unchanged, after every event since it was set:
      until it ends no attempt is let through, and only a success could lift it. */
  lemma {:induction false} LockHolds(c: Config, events: seq<Event>, more: seq<Event>, k: string, now: int)
    requires Sequential(c, events + more) && Locked(Get(After(c, events), k), now)
    requires Until(more, now) && forall i :: 0 <= i < |more| ==> more[i] != Succeeded(k)
    ensures Get(After(c, events + more), k) == Get(After(c, events), k)
    ensures forall i :: 0 <= i < |more| ==> more[i].key != k
  {
    if more == [] {
      assert events + more == events;
    } else {
      var init := more[..|more| - 1];
      var last := more[|more| - 1];
      assert (events + more)[..|events + more| - 1] == events + init;
      assert (events + more)[|events + more| - 1] == last;
      LockHolds(c, events, init, k, now);
    }
  }

  /** The failures that count against k now: those since its last success, from the first one
      that the latest is within a decay time of. */
  function Streak(c: Config, events: seq<Event>, k: string): seq<int> {
    if events == [] then []
    else
      var before := Streak(c, events[..|events| - 1], k);
      match events[|events| - 1]
      case Succeeded(k2) => if k2 == k then [] else before
      case Failed(k2, _, at) =>
        if k2 != k then before else if before == [] || at - before[0] > c.decay then [at] else before + [at]
  }

  /** A counter is its streak: it starts at the first failure, has their number, and holds a lock
      from the threshold on that ends one lockout after the last. */
  lemma {:induction false} CounterIsTheStreak(c: Config, events: seq<Event>, k: string)
    requires Sound(c)
    ensures var streak := Streak(c, events, k);
      Get(After(c, events), k) ==
        if streak == [] then None
        else
          Some(Entry(streak[0], |streak|,
            if |streak| >= c.maxFails then Some(streak[|streak| - 1] + c.lockout) else None))
  {
    if events != [] {
      CounterIsTheStreak(c, events[..|events| - 1], k);
    }
  }

  /** When an account is locked: exactly within one lockout of its last failure, once its streak
      has reached the threshold. */
  lemma LockedExactly(c: Config, events: seq<Event>, k: string, now: int)
    requires Sound(c)
    ensures var streak := Streak(c, events, k);
      Locked(Get(After(c, events), k), now) <==>
        |streak| >= c.maxFails && now < streak[|streak| - 1] + c.lockout
  {
    CounterIsTheStreak(c, events, k);
  }

  /** The failure that reaches or passes the threshold locks the account for one lockout from
      then on, no less and no more. */
  lemma LockEndsExactly(c: Config, events: seq<Event>, k: string, checked: int, at: int, now: int)
    requires Sound(c)
    requires After(c, events + [Failed(k, checked, at)])[k].failCount >= c.maxFails
    ensures Locked(Get(After(c, events + [Failed(k, checked, at)]), k), now) <==> now < at + c.lockout
  {
    OneMoreFailure(c, events, k, checked, at);
    StreakEnds(c, events, k, checked, at);
    LockedExactly(c, events + [Failed(k, checked, at)], k, now);
    CounterIsTheStreak(c, events + [Failed(k, checked, at)], k);
  }

  lemma StreakEnds(c: Config, events: seq<Event>, k: string, checked: int, at: int)
    ensures var streak := Streak(c, events + [Failed(k, checked, at)], k); streak != [] && streak[|streak| - 1] == at
  {
    assert (events + [Failed(k, checked, at)])[..|events|] == events;
  }

  /** The threshold is reached: failures in a row within one decay time all join one streak. */
  lemma {:induction false} FailuresJoinTheStreak(c: Config, events: seq<Event>, more: seq<Event>, k: string, first: int)
    requires Sound(c) && Streak(c, events, k) != [] && Streak(c, events, k)[0] == first
    requires forall i :: 0 <= i < |more| ==> more[i].Failed? && more[i].key == k && more[i].at - first <= c.decay
    ensures |Streak(c, events + more, k)| == |Streak(c, events, k)| + |more| && Streak(c, events + more, k)[0] == first
  {
    if more == [] {
      assert events + more == events;
    } else {
      assert (events + more)[..|events + more| - 1] == events + more[..|more| - 1];
      FailuresJoinTheStreak(c, events, more[..|more| - 1], k, first);
    }
  }

  lemma RemoveOne(m: map<string, Entry>, k: string)
    requires k in m
    ensures |m - {k}| == |m| - 1
  {
    assert m.Keys == (m - {k}).Keys + {k};
  }

  /** What a check leaves of the map: an expired counter of the account itself is dropped. */
  function Swept(c: Config, entries: map<string, Entry>, key: string, now: int): map<string, Entry> {
    if key in entries && !Locked(Some(entries[key]), now) && Stale(c, entries[key], now) then entries - {key}
    else entries
  }

  /** A recorded failure finds room: the map is not full, or holds a counter that may go. */
  ghost predicate Room(c: Config, entries: map<string, Entry>, now: int) {
    |entries| < c.maxTracked || exists k <- entries :: Evictable(c, entries[k], now)
  }

  class Tracker {
    const cfg: Config
    var entries: map<string, Entry>
    ghost var events: seq<Event>
    ghost var clock: int

    /** The map is the ideal tracker's but for counters that no longer matter. */
    ghost predicate Valid()
      reads this
    {
      && Sound(cfg)
      && |entries| <= cfg.maxTracked
      && (forall k :: k in entries ==> Get(After(cfg, events), k) == Some(entries[k]))
      && (forall k :: k in After(cfg, events) && k !in entries ==> Forgettable(k))
    }

    ghost predicate Forgettable(k: string)
      reads this
      requires k in After(cfg, events)
    {
      var e := After(cfg, events)[k];
      !Locked(Some(e), clock) && Stale(cfg, e, clock)
    }

    constructor (config: Config, ghost start: int)
      ensures Valid() && cfg == WithDefaults(config) && events == [] && entries == map[] && clock == start
    {
      cfg := WithDefaults(config);
      entries := map[];
      events := [];
      clock := start;
    }

    /** Refuses exactly while the ideal tracker holds an active lock on the account. */
    method Check(key: string, now: int) returns (refused: bool)
      requires Valid() && clock <= now
      modifies this
      ensures Valid() && clock == now && events == old(events)
      ensures refused == Locked(Get(After(cfg, events), key), now)
      ensures var streak := Streak(cfg, events, key);
        refused <==> |streak| >= cfg.maxFails && now < streak[|streak| - 1] + cfg.lockout
      ensures entries == Swept(cfg, old(entries), key, now)
    {
      LockedExactly(cfg, events, key, now);
      clock := now;
      if key !in entries {
        return false;
      }
      var e := entries[key];
      if e.lockedUntil.Some? && now < e.lockedUntil.value {
        return true;
      }
      if now - e.firstFail > cfg.decay {
        entries := entries - {key};
      }
      refused := false;
    }

    /** The eviction at the start of `Record`: drops one counter that no longer matters when the
        map is full and holds one. */
    method MakeRoom(now: int) returns (room: bool)
      requires Valid() && clock <= now
      modifies this`entries, this`clock
      ensures Valid() && clock == now
      ensures room <==> Room(cfg, old(entries), now)
      ensures room ==> |entries| < cfg.maxTracked
      ensures !room ==> entries == old(entries)
      ensures forall k <- old(entries) ::
        !Evictable(cfg, old(entries)[k], now) ==> k in entries && entries[k] == old(entries)[k]
    {
      clock := now;
      if |entries| >= cfg.maxTracked {
        if k :| k in entries && Evictable(cfg, entries[k], now) {
          RemoveOne(entries, k);
          entries := entries - {k};
          return true;
        }
        return false;
      }
      room := true;
    }

    /** Counts the failure as the ideal tracker would, unless the map is full of counters none of
        which may go: then the failure leaves no trace, even on an account already tracked. No
        other account's active lock is touched. */
    method Record(key: string, ghost checked: int, now: int) returns (kept: bool)
      requires Valid() && clock <= now
      modifies this
      ensures Valid() && clock == now
      ensures kept <==> Room(cfg, old(entries), now)
      ensures kept ==> events == old(events) + [Failed(key, checked, now)] && key in entries
      ensures !kept ==> events == old(events) && entries == old(entries)
      ensures forall k <- old(entries) ::
        k != key && Locked(Some(old(entries)[k]), now) ==> k in entries && entries[k] == old(entries)[k]
    {
      kept := MakeRoom(now);
      if kept {
        Count(key, checked, now);
      }
    }

    /** A counter in the map whose account has not failed for a decay time and a lockout makes
        room for another, however full the map is. */
    lemma OldCountersMakeRoom(k: string, now: int)
      requires Valid() && k in entries
      requires var streak := Streak(cfg, events, k);
        forall i :: 0 <= i < |streak| ==> streak[i] + cfg.decay < now && streak[i] + cfg.lockout < now
      ensures Room(cfg, entries, now)
    {
      CounterIsTheStreak(cfg, events, k);
      assert Evictable(cfg, entries[k], now);
    }

    /** The rest of `Record`, once there is room. */
    method Count(key: string, ghost checked: int, now: int)
      requires Valid() && clock == now && |entries| < cfg.maxTracked
      modifies this`entries, this`events
      ensures Valid() && key in entries && events == old(events) + [Failed(key, checked, now)]
      ensures entries == old(entries)[key := entries[key]]
    {
      var e := Entry(now, 0, None);
      if key in entries && !(now - entries[key].firstFail > cfg.decay) {
        e := entries[key];
      }
      e := e.(failCount := e.failCount + 1);
      if e.failCount >= cfg.maxFails {
        e := e.(lockedUntil := Some(now + cfg.lockout));
      }
      OneMoreFailure(cfg, events, key, checked, now);
      assert e == Counted(cfg, Get(After(cfg, events), key), now);
      assert entries[key := e].Keys == entries.Keys + {key};
      events := events + [Failed(key, checked, now)];
      entries := entries[key := e];
    }

    method Clear(key: string)
      requires Valid()
      modifies this
      ensures Valid() && clock == old(clock)
      ensures events == old(events) + [Succeeded(key)] && entries == old(entries) - {key}
    {
      events := events + [Succeeded(key)];
      assert events[..|events| - 1] == old(events);
      entries := entries - {key};
    }
  }

  /** One login that no lock refused, and whether the tracker kept a record of it. */
  datatype Attempt = Attempt(e: Event, kept: bool)

  function Kept(attempts: seq<Attempt>): seq<Event> {
    if attempts == [] then []
    else
      var last := attempts[|attempts| - 1];
      Kept(attempts[..|attempts| - 1]) + if last.kept then [last.e] else []
  }

  /** The failures of k with lo <= at <= hi since its last success: those let through, whether
      recorded or not, or with `all` false those that left no record. */
  function LetThrough(attempts: seq<Attempt>, k: string, lo: int, hi: int, all: bool): nat {
    if attempts == [] then 0
    else
      var rest := LetThrough(attempts[..|attempts| - 1], k, lo, hi, all);
      var last := attempts[|attempts| - 1];
      match last.e
      case Succeeded(k2) => if k == k2 then 0 else rest
      case Failed(k2, _, at) => rest + if k == k2 && lo <= at <= hi && (all || !last.kept) then 1 else 0
  }

  /** Successes always leave their record. */
  ghost predicate SuccessesKept(attempts: seq<Attempt>) {
    forall a <- attempts :: a.e.Succeeded? ==> a.kept
  }

  lemma {:induction false} RecordedAndDropped(attempts: seq<Attempt>, k: string, lo: int, hi: int)
    requires SuccessesKept(attempts)
    ensures LetThrough(attempts, k, lo, hi, true) ==
      Failures(Kept(attempts), k, lo, hi) + LetThrough(attempts, k, lo, hi, false)
    ensures (forall a <- attempts :: a.kept) ==> LetThrough(attempts, k, lo, hi, false) == 0
  {
    if attempts != [] {
      var init, last := attempts[..|attempts| - 1], attempts[|attempts| - 1];
      RecordedAndDropped(init, k, lo, hi);
      if last.kept {
        OneMoreCounts(Kept(init), last.e, k, lo, hi);
      } else {
        assert Kept(init) + [] == Kept(init);
      }
    }
  }

  lemma OneMoreCounts(events: seq<Event>, e: Event, k: string, lo: int, hi: int)
    ensures Failures(events + [e], k, lo, hi) ==
      if e.Succeeded? && e.key == k then 0
      else Failures(events, k, lo, hi) + if e.Failed? && e.key == k && lo <= e.at <= hi then 1 else 0
  {
    assert (events + [e])[..|events|] == events;
  }

  /** The bound on the attempts themselves: in any stretch of one decay time no more failures in a
      row get through than the recorded ones allow, plus those for which the map had no room; and
      where every record had room, no more than the bound. */
  lemma AttemptsAreBounded(c: Config, attempts: seq<Attempt>, k: string, lo: int, hi: int)
    requires Sound(c) && Sequential(c, Kept(attempts)) && SuccessesKept(attempts) && hi <= lo + c.decay
    ensures LetThrough(attempts, k, lo, hi, true) <= 2 * Bound(c) + LetThrough(attempts, k, lo, hi, false)
    ensures (forall a <- attempts :: a.kept) ==> LetThrough(attempts, k, lo, hi, true) <= 2 * Bound(c)
  {
    FailuresAreBounded(c, Kept(attempts), k, lo, hi);
    RecordedAndDropped(attempts, k, lo, hi);
  }

  /** One more event after the others keeps a run sequential. */
  lemma OneMoreEvent(c: Config, events: seq<Event>, e: Event, t: int, u: int)
    requires Sequential(c, events) && Until(events, t) && t <= u
    requires e.Failed? ==> t <= e.checked <= e.at <= u && !Locked(Get(After(c, events), e.key), e.checked)
    ensures Sequential(c, events + [e]) && Until(events + [e], u)
  {
    assert (events + [e])[..|events|] == events;
  }

  lemma OneMoreAttempt(attempts: seq<Attempt>, a: Attempt)
    requires SuccessesKept(attempts) && (a.e.Succeeded? ==> a.kept)
    ensures Kept(attempts + [a]) == Kept(attempts) + (if a.kept then [a.e] else [])
    ensures SuccessesKept(attempts + [a])
  {
    assert (attempts + [a])[..|attempts|] == attempts;
  }

  /** What becomes of a login: the password fits and a session is made, the password does not fit
      or nobody has that address, or the login fails for another reason. */
  datatype Outcome = Fits | Wrong | Otherwise

  /** The login handler in front of a tracker. */
  class Login {
    const t: Tracker
    ghost var attempts: seq<Attempt>

    ghost predicate Valid()
      reads this, t
    {
      && t.Valid() && t.events == Kept(attempts) && SuccessesKept(attempts)
      && Sequential(t.cfg, t.events) && Until(t.events, t.clock)
    }

    constructor (config: Config, ghost start: int)
      ensures Valid() && fresh(t) && t.cfg == WithDefaults(config) && t.clock == start && attempts == [] &&
        t.entries == map[]
    {
      t := new Tracker(config, start);
      attempts := [];
    }

    /** One login, from the lockout check to the record of its outcome. An active lock refuses it
        without a trace; otherwise a wrong password counts exactly when the map, as the check
        left it, has room. */
    method Authenticate(key: string, checked: int, outcome: Outcome, done: int) returns (ok: bool)
      requires Valid() && t.clock <= checked <= done
      modifies this, t
      ensures Valid() && t.clock <= done
      ensures ok <==> outcome == Fits && !Locked(Get(After(t.cfg, old(t.events)), key), checked)
      ensures Locked(Get(After(t.cfg, old(t.events)), key), checked) || outcome == Otherwise ==>
        attempts == old(attempts)
      ensures ok ==> attempts == old(attempts) + [Attempt(Succeeded(key), true)]
      ensures !Locked(Get(After(t.cfg, old(t.events)), key), checked) && outcome == Wrong ==>
        attempts == old(attempts) +
          [Attempt(Failed(key, checked, done), Room(t.cfg, Swept(t.cfg, old(t.entries), key, checked), done))]
      ensures outcome == Wrong && !Room(t.cfg, Swept(t.cfg, old(t.entries), key, checked), done) ==>
        t.entries == Swept(t.cfg, old(t.entries), key, checked)
      ensures outcome == Wrong ==>
        t.clock == if Locked(Get(After(t.cfg, old(t.events)), key), checked) then checked else done
    {
      ok := false;
      var refused := t.Check(key, checked);
      if refused || outcome == Otherwise {
        return false;
      }
      if outcome == Fits {
        OneMoreEvent(t.cfg, t.events, Succeeded(key), old(t.clock), checked);
        OneMoreAttempt(attempts, Attempt(Succeeded(key), true));
        t.Clear(key);
        attempts := attempts + [Attempt(Succeeded(key), true)];
        return true;
      }
      OneMoreEvent(t.cfg, t.events, Failed(key, checked, done), old(t.clock), done);
      ghost var room := Room(t.cfg, t.entries, done);
      OneMoreAttempt(attempts, Attempt(Failed(key, checked, done), room));
      var kept := t.Record(key, checked, done);
      attempts := attempts + [Attempt(Failed(key, checked, done), room)];
    }
  }

  /** A map of one counter, full from the first failure on. */
  method FullMap() returns (login: Login)
    ensures fresh(login) && fresh(login.t) && login.Valid() && login.t.clock == 0
    ensures login.t.cfg == Config(10, 15 * MINUTE, 5 * MINUTE, 1)
    ensures login.t.entries == map["a" := Entry(0, 1, None)]
    ensures login.attempts == [Attempt(Failed("a", 0, 0), true)]
  {
    login := new Login(Config(10, 15 * MINUTE, 5 * MINUTE, 1), 0);
    assert After(login.t.cfg, []) == map[];
    var _ := login.Authenticate("a", 0, Wrong, 0);
    OneMoreFailure(login.t.cfg, [], "a", 0, 0);
    assert login.t.events == [] + [Failed("a", 0, 0)];
    assert After(login.t.cfg, login.t.events) == map["a" := Entry(0, 1, None)];
    assert login.t.entries == map["a" := Entry(0, 1, None)];
  }

  /** Why the room matters: once the map is full of fresh counters, an account that is not in it
      fails as often as it likes, and no lock ever stops it. */
  method FullMapLimitsNobody(n: nat) returns (login: Login)
    ensures login.Valid() && login.t.cfg == Config(10, 15 * MINUTE, 5 * MINUTE, 1)
    ensures LetThrough(login.attempts, "b", 0, 0, true) == n
  {
    login := FullMap();
    assert login.attempts[..0] == [];
    for i := 0 to n
      invariant login.Valid() && login.t.clock == 0 && fresh(login) && fresh(login.t)
      invariant login.t.cfg == Config(10, 15 * MINUTE, 5 * MINUTE, 1)
      invariant login.t.entries == map["a" := Entry(0, 1, None)]
      invariant LetThrough(login.attempts, "b", 0, 0, true) == i
    {
      ghost var before := login.attempts;
      NoLockWithoutCounter(login.t, "b");
      var _ := login.Authenticate("b", 0, Wrong, 0);
      assert login.attempts[..|login.attempts| - 1] == before;
    }
  }

  /** An account without a counter in the map has no active lock. */
  lemma NoLockWithoutCounter(t: Tracker, key: string)
    requires t.Valid() && key !in t.entries
    ensures !Locked(Get(After(t.cfg, t.events), key), t.clock)
  {
    if key in After(t.cfg, t.events) {
      assert t.Forgettable(key);
    }
  }
}
