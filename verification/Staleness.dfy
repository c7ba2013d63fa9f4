/** The TTL caches under concurrency: lookups, invalidations and changes of the store behind
    them, interleaved in any way. One machine stands for the session, token and grant caches;
    a value is whatever the store would answer, negative answers included where they are cached. */
module Staleness {

  type Key = string
  type Value = nat

  /** A cached answer. `lag` is 0 for an entry stored by a lookup; for one primed at creation
      it is the time between reading the store and reading the clock. `agrees` says whether the
      store gave that answer when it was read, which a lookup's entry always has: priming looks
      neither at a user's disabled flag nor at their role. */
  datatype Entry = Entry(value: Value, deadline: int, lag: nat, agrees: bool)

  /** A call in progress. A lookup reads the clock, then the cache, then the store. */
  datatype Call =
    | Started(key: Key, now: int)
    | Missed(key: Key, now: int)
    | Fetched(key: Key, now: int, value: Value)
    | Priming(key: Key, read: int, value: Value, agrees: bool)

  /** One answer given from the cache, for a call that read the clock at `at`. */
  datatype Served = Served(key: Key, value: Value, at: int, lag: nat, agrees: bool)

  datatype State = State(clock: int, store: map<Key, Value>, items: map<Key, Entry>, calls: map<nat, Call>,
    served: seq<Served>)

  datatype Action =
    | Tick(to: int)
    | Change(store: map<Key, Value>)
    | Begin(id: nat, key: Key)
    | ReadCache(id: nat, reject: bool)  // the token cache rejects a fresh entry whose token has expired
    | ReadStore(id: nat)
    | Put(id: nat)
    | BeginPrime(id: nat, key: Key, value: Value)
    | PutPrime(id: nat)
    | Drop(key: Key)
    | Flush

  function Init(): State {
    State(0, map[], map[], map[], [])
  }

  predicate Enabled(s: State, a: Action) {
    match a
    case Tick(to) => to >= s.clock
    case Change(_) => true
    case Begin(id, _) => id !in s.calls
    case ReadCache(id, _) => id in s.calls && s.calls[id].Started?
    case ReadStore(id) => id in s.calls && s.calls[id].Missed?
    case Put(id) => id in s.calls && s.calls[id].Fetched?
    case BeginPrime(id, _, _) => id !in s.calls
    case PutPrime(id) => id in s.calls && s.calls[id].Priming?
    case Drop(_) => true
    case Flush => true
  }

  function Apply(s: State, a: Action, ttl: nat): State
    requires Enabled(s, a)
  {
    match a
    case Tick(to) => s.(clock := to)
    case Change(store) => s.(store := store)
    case Begin(id, key) => s.(calls := s.calls[id := Started(key, s.clock)])
    case ReadCache(id, reject) =>
      var c := s.calls[id];
      if c.key in s.items && c.now < s.items[c.key].deadline then
        var e := s.items[c.key];
        if reject then s.(calls := s.calls[id := Missed(c.key, c.now)], items := s.items - {c.key})
        else s.(calls := s.calls - {id}, served := s.served + [Served(c.key, e.value, c.now, e.lag, e.agrees)])
      else s.(calls := s.calls[id := Missed(c.key, c.now)])
    case ReadStore(id) =>
      var c := s.calls[id];
      if c.key in s.store then s.(calls := s.calls[id := Fetched(c.key, c.now, s.store[c.key])])
      else s.(calls := s.calls - {id}, items := s.items - {c.key})
    case Put(id) =>
      var c := s.calls[id];
      s.(calls := s.calls - {id}, items := s.items[c.key := Entry(c.value, c.now + ttl, 0, true)])
    case BeginPrime(id, key, v) => s.(calls := s.calls[id := Priming(key, s.clock, v, Answers(s, key, v, s.clock))])
    case PutPrime(id) =>
      var c := s.calls[id];
      var lag := if s.clock >= c.read then s.clock - c.read else 0;
      s.(calls := s.calls - {id}, items := s.items[c.key := Entry(c.value, s.clock + ttl, lag, c.agrees)])
    case Drop(key) => s.(items := s.items - {key})
    case Flush => s.(items := map[])
  }

  /** The states of a run, one more than its actions. */
  ghost predicate IsRun(states: seq<State>, acts: seq<Action>, ttl: nat) {
    && |states| == |acts| + 1
    && states[0] == Init()
    && forall i :: 0 <= i < |acts| ==> Enabled(states[i], acts[i]) && states[i + 1] == Apply(states[i], acts[i], ttl)
  }

  /** The clock is at t or later and the store answers v for k. */
  predicate Answers(s: State, k: Key, v: Value, t: int) {
    s.clock >= t && k in s.store && s.store[k] == v
  }

  /** That was so at some instant of the first n steps. */
  ghost predicate Held(states: seq<State>, n: nat, k: Key, v: Value, t: int)
    requires n < |states|
  {
    exists j :: 0 <= j <= n && Answers(states[j], k, v, t)
  }

  /** A priming that the store does not back is about to be cached, at clock t or later. */
  ghost predicate Unbacked(s: State, k: Key, v: Value, t: int) {
    s.clock >= t && exists id <- s.calls :: Backs(s.calls[id], k, v)
  }

  predicate Backs(c: Call, k: Key, v: Value) {
    c.Priming? && !c.agrees && c.key == k && c.value == v
  }

  ghost predicate Primed(states: seq<State>, n: nat, k: Key, v: Value, t: int)
    requires n < |states|
  {
    exists j :: 0 <= j <= n && Unbacked(states[j], k, v, t)
  }

  ghost predicate CallOk(states: seq<State>, n: nat, c: Call)
    requires n < |states|
  {
    match c
    case Started(_, now) => now <= states[n].clock
    case Missed(_, now) => now <= states[n].clock
    case Fetched(k, now, v) => Held(states, n, k, v, now)
    case Priming(k, read, v, agrees) => agrees ==> Held(states, n, k, v, read)
  }

  /** The value was held by the store late enough, or primed late enough without its backing. */
  ghost predicate Sourced(states: seq<State>, n: nat, k: Key, v: Value, agrees: bool, lag: nat, t: int)
    requires n < |states|
  {
    if agrees then Held(states, n, k, v, t - lag) else Primed(states, n, k, v, t)
  }

  /** Every value in the cache, in a call or already served has such a source. */
  ghost predicate Inv(states: seq<State>, n: nat, ttl: nat)
    requires n < |states|
  {
    var s := states[n];
    && (forall k <- s.items :: ItemOk(states, n, ttl, k, s.items[k]))
    && (forall id <- s.calls :: CallOk(states, n, s.calls[id]))
    && (forall x <- s.served :: ServedOk(states, n, ttl, x))
  }

  ghost predicate ItemOk(states: seq<State>, n: nat, ttl: nat, k: Key, e: Entry)
    requires n < |states|
  {
    Sourced(states, n, k, e.value, e.agrees, e.lag, e.deadline - ttl)
  }

  ghost predicate ServedOk(states: seq<State>, n: nat, ttl: nat, x: Served)
    requires n < |states|
  {
    Sourced(states, n, x.key, x.value, x.agrees, x.lag, x.at - ttl + 1)
  }

  lemma HeldLater(states: seq<State>, n: nat, k: Key, v: Value, t: int, u: int)
    requires n + 1 < |states| && Held(states, n, k, v, t) && u <= t
    ensures Held(states, n + 1, k, v, u)
  {
    var j :| 0 <= j <= n && Answers(states[j], k, v, t);
    assert Answers(states[j], k, v, u);
  }

  lemma SourcedLater(states: seq<State>, n: nat, k: Key, v: Value, agrees: bool, lag: nat, t: int, u: int)
    requires n + 1 < |states| && Sourced(states, n, k, v, agrees, lag, t) && u <= t
    ensures Sourced(states, n + 1, k, v, agrees, lag, u)
  {
    if agrees {
      HeldLater(states, n, k, v, t - lag, u - lag);
    } else {
      var j :| 0 <= j <= n && Unbacked(states[j], k, v, t);
      assert Unbacked(states[j], k, v, u);
    }
  }

  lemma CallsKept(states: seq<State>, acts: seq<Action>, ttl: nat, n: nat, id: nat)
    requires IsRun(states, acts, ttl) && n < |acts| && Inv(states, n, ttl) && id in states[n + 1].calls
    ensures CallOk(states, n + 1, states[n + 1].calls[id])
  {
    var s, t, a := states[n], states[n + 1], acts[n];
    if a.BeginPrime? && id == a.id {
      assert t.calls[id].agrees ==> Answers(s, a.key, a.value, s.clock);
    } else if a.ReadStore? && id == a.id {
      var c := s.calls[id];
      assert Answers(s, c.key, s.store[c.key], c.now);
    } else if id in s.calls && s.calls[id] == t.calls[id] {
      var c := s.calls[id];
      if c.Fetched? {
        HeldLater(states, n, c.key, c.value, c.now, c.now);
      } else if c.Priming? && c.agrees {
        HeldLater(states, n, c.key, c.value, c.read, c.read);
      }
    }
  }

  /** A primed entry is sourced: its deadline counts from the clock read when it is put. */
  lemma PutPrimeKept(states: seq<State>, acts: seq<Action>, ttl: nat, n: nat)
    requires IsRun(states, acts, ttl) && n < |acts| && Inv(states, n, ttl) && acts[n].PutPrime?
    ensures var c := states[n].calls[acts[n].id]; ItemOk(states, n + 1, ttl, c.key, states[n + 1].items[c.key])
  {
    var s, id := states[n], acts[n].id;
    var c := s.calls[id];
    var e := states[n + 1].items[c.key];
    assert CallOk(states, n, c);
    if c.agrees {
      HeldLater(states, n, c.key, c.value, c.read, e.deadline - ttl - e.lag);
    } else {
      assert Backs(s.calls[id], c.key, c.value);
      assert Unbacked(s, c.key, c.value, e.deadline - ttl);
      assert Sourced(states, n, c.key, c.value, false, e.lag, e.deadline - ttl);
      SourcedLater(states, n, c.key, c.value, false, e.lag, e.deadline - ttl, e.deadline - ttl);
    }
  }

  lemma ItemsKept(states: seq<State>, acts: seq<Action>, ttl: nat, n: nat, k: Key)
    requires IsRun(states, acts, ttl) && n < |acts| && Inv(states, n, ttl) && k in states[n + 1].items
    ensures ItemOk(states, n + 1, ttl, k, states[n + 1].items[k])
  {
    var s, a := states[n], acts[n];
    var e := states[n + 1].items[k];
    if a.Put? && k == s.calls[a.id].key {
      assert CallOk(states, n, s.calls[a.id]);
      HeldLater(states, n, k, e.value, s.calls[a.id].now, e.deadline - ttl - e.lag);
    } else if a.PutPrime? && k == s.calls[a.id].key {
      PutPrimeKept(states, acts, ttl, n);
    } else {
      assert ItemOk(states, n, ttl, k, s.items[k]);
      SourcedLater(states, n, k, e.value, e.agrees, e.lag, e.deadline - ttl, e.deadline - ttl);
    }
  }

  lemma ServedKept(states: seq<State>, acts: seq<Action>, ttl: nat, n: nat, x: Served)
    requires IsRun(states, acts, ttl) && n < |acts| && Inv(states, n, ttl) && x in states[n + 1].served
    ensures ServedOk(states, n + 1, ttl, x)
  {
    var s := states[n];
    if x in s.served {
      assert ServedOk(states, n, ttl, x);
      SourcedLater(states, n, x.key, x.value, x.agrees, x.lag, x.at - ttl + 1, x.at - ttl + 1);
    } else {
      var e := s.items[x.key];
      assert ItemOk(states, n, ttl, x.key, e);
      SourcedLater(states, n, x.key, e.value, e.agrees, e.lag, e.deadline - ttl, x.at - ttl + 1);
    }
  }

  lemma {:induction false} AlwaysInv(states: seq<State>, acts: seq<Action>, ttl: nat, n: nat)
    requires IsRun(states, acts, ttl) && n < |states|
    ensures Inv(states, n, ttl)
  {
    if n > 0 {
      AlwaysInv(states, acts, ttl, n - 1);
      forall k <- states[n].items ensures ItemOk(states, n, ttl, k, states[n].items[k]) {
        ItemsKept(states, acts, ttl, n - 1, k);
      }
      forall id <- states[n].calls ensures CallOk(states, n, states[n].calls[id]) {
        CallsKept(states, acts, ttl, n - 1, id);
      }
      forall x <- states[n].served ensures ServedOk(states, n, ttl, x) {
        ServedKept(states, acts, ttl, n - 1, x);
      }
    }
  }

  /** Under every interleaving, what is served from the cache to a lookup that read the clock at T
      was the store's answer at some instant after T - ttl, less the lag of a primed entry; or it
      was primed after T - ttl with something the store was not answering then. */
  lemma BoundedStaleness(states: seq<State>, acts: seq<Action>, ttl: nat, n: nat, x: Served)
    requires IsRun(states, acts, ttl) && n < |states| && x in states[n].served
    ensures x.agrees ==> exists j :: 0 <= j <= n && Answers(states[j], x.key, x.value, x.at - ttl - x.lag + 1)
    ensures !x.agrees ==> exists j :: 0 <= j <= n && Unbacked(states[j], x.key, x.value, x.at - ttl + 1)
  {
    AlwaysInv(states, acts, ttl, n);
    assert ServedOk(states, n, ttl, x);
  }

  /** So once the store has stopped answering v for k, from clock r on, and nobody primes it, no
      lookup that starts a full TTL later, plus the lag, is served v, however invalidations and
      lookups in flight interleave. */
  lemma RevocationTakesEffectWithinOneTtl(states: seq<State>, acts: seq<Action>, ttl: nat, n: nat, x: Served, r: int)
    requires IsRun(states, acts, ttl) && n < |states| && x in states[n].served
    requires forall j :: 0 <= j <= n ==>
      !Answers(states[j], x.key, x.value, r) && !Unbacked(states[j], x.key, x.value, r)
    ensures x.at < r + ttl + if x.agrees then x.lag else 0
  {
    BoundedStaleness(states, acts, ttl, n, x);
    if x.agrees {
      var j :| 0 <= j <= n && Answers(states[j], x.key, x.value, x.at - ttl - x.lag + 1);
      assert !Answers(states[j], x.key, x.value, r);
    } else {
      var j :| 0 <= j <= n && Unbacked(states[j], x.key, x.value, x.at - ttl + 1);
      assert !Unbacked(states[j], x.key, x.value, r);
    }
  }

  /** The states and actions so far are a run that ends in s. */
  ghost predicate RunTo(states: seq<State>, acts: seq<Action>, ttl: nat, s: State) {
    IsRun(states, acts, ttl) && states[|acts|] == s
  }

  lemma RunOn(states: seq<State>, acts: seq<Action>, ttl: nat, s: State, a: Action, t: State)
    returns (states2: seq<State>, acts2: seq<Action>)
    requires RunTo(states, acts, ttl, s) && Enabled(s, a) && t == Apply(s, a, ttl)
    ensures RunTo(states2, acts2, ttl, t) && states2 == states + [t]
  {
    states2, acts2 := states + [t], acts + [a];
  }

  /** Priming that reads the store, waits 5, and only then reads the clock for the deadline. */
  lemma PrimedLate(k: Key, v: Value) returns (states: seq<State>, acts: seq<Action>)
    ensures RunTo(states, acts, 10, State(5, map[], map[k := Entry(v, 15, 5, true)], map[], []))
    ensures forall j :: 0 <= j < |states| ==> !Answers(states[j], k, v, 4)
  {
    var s0 := Init();
    var s1 := s0.(store := map[k := v]);
    var s2 := s1.(calls := map[0 := Priming(k, 0, v, true)]);
    var s3 := s2.(store := map[]);
    var s4 := s3.(clock := 5);
    var s5 := s4.(calls := map[], items := map[k := Entry(v, 15, 5, true)]);
    states, acts := [s0], [];
    states, acts := RunOn(states, acts, 10, s0, Change(map[k := v]), s1);
    states, acts := RunOn(states, acts, 10, s1, BeginPrime(0, k, v), s2);
    states, acts := RunOn(states, acts, 10, s2, Change(map[]), s3);
    states, acts := RunOn(states, acts, 10, s3, Tick(5), s4);
    assert s5.calls == s4.calls - {0};
    states, acts := RunOn(states, acts, 10, s4, PutPrime(0), s5);
    assert states == [s0, s1, s2, s3, s4, s5];
  }

  /** The lag is real: with a TTL of 10, a primed entry whose store read took 5 is served when
      the store has not answered it for longer than the TTL. */
  lemma PrimedEntriesOutliveTheTtl(k: Key, v: Value) returns (states: seq<State>, acts: seq<Action>, x: Served)
    ensures IsRun(states, acts, 10) && x in states[|acts|].served && x.key == k && x.value == v && x.agrees
    ensures forall j :: 0 <= j < |states| ==> !Answers(states[j], k, v, x.at - 10)
  {
    states, acts := PrimedLate(k, v);
    var s := State(5, map[], map[k := Entry(v, 15, 5, true)], map[], []);
    var before := states;
    states, acts, x := ServedAt(states, acts, s, k, 14);
    forall j | 0 <= j < |states| ensures !Answers(states[j], k, v, 4) {
      if j < |before| {
        assert states[j] == before[j];
      }
    }
  }

  /** A lookup that finds a fresh entry. */
  lemma ServedAt(states: seq<State>, acts: seq<Action>, s: State, k: Key, now: int)
    returns (states2: seq<State>, acts2: seq<Action>, x: Served)
    requires RunTo(states, acts, 10, s) && s.calls == map[] && s.clock <= now && k in s.items &&
      now < s.items[k].deadline
    ensures IsRun(states2, acts2, 10) && x in states2[|acts2|].served
    ensures x == Served(k, s.items[k].value, now, s.items[k].lag, s.items[k].agrees)
    ensures |states2| == |states| + 3 && states2[..|states|] == states
    ensures forall j :: |states| <= j < |states2| ==> states2[j].store == s.store
  {
    var e := s.items[k];
    x := Served(k, e.value, now, e.lag, e.agrees);
    var t1 := s.(clock := now);
    var t2 := t1.(calls := map[1 := Started(k, now)]);
    var t3 := t2.(calls := map[], served := s.served + [x]);
    states2, acts2 := RunOn(states, acts, 10, s, Tick(now), t1);
    states2, acts2 := RunOn(states2, acts2, 10, t1, Begin(1, k), t2);
    assert t3.calls == t2.calls - {1};
    states2, acts2 := RunOn(states2, acts2, 10, t2, ReadCache(1, false), t3);
  }

  /** Nor is agreement for free: an answer the store never gives is primed, without any lag, and
      served. */
  lemma UnbackedPrimesAreServed(k: Key, v: Value) returns (states: seq<State>, acts: seq<Action>, x: Served)
    ensures IsRun(states, acts, 10) && x in states[|acts|].served && x.key == k && x.value == v && x.lag == 0
    ensures forall j, t :: 0 <= j < |states| ==> !Answers(states[j], k, v, t)
  {
    var s0 := Init();
    var s1 := s0.(calls := map[0 := Priming(k, 0, v, false)]);
    var s2 := s1.(calls := map[], items := map[k := Entry(v, 10, 0, false)]);
    states, acts := [s0], [];
    states, acts := RunOn(states, acts, 10, s0, BeginPrime(0, k, v), s1);
    assert s2.calls == s1.calls - {0};
    states, acts := RunOn(states, acts, 10, s1, PutPrime(0), s2);
    states, acts, x := ServedAt(states, acts, s2, k, 9);
  }
}
