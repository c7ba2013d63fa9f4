/** The query cache: per-entry deadlines, and a lock per key so that callers who miss together
    load once. Callers are interleaved in any way. */
module SingleFlight {
  import opened Basics

  type Key = seq<bv8>
  type Value = nat

  /** A cached value; no deadline means it never expires. */
  datatype Entry = Entry(value: Value, deadline: Option<int>)

  predicate Expired(e: Entry, now: int) {
    e.deadline.Some? && now > e.deadline.value
  }

  /** How far a call of `Wrap` has come. From `Rechecking` to `Leaving` it holds its key's lock;
      `Answering` returns a hit without it. */
  datatype Phase =
    | Looking
    | Peeked(e: Entry)
    | Answering(hit: Value)
    | Missed
    | Waiting(mu: nat)
    | Rechecking(mu: nat)
    | Repeeked(mu: nat, found: Option<Entry>)
    | Loading(mu: nat)
    | Loaded(mu: nat, v: Value)
    | Stamped(mu: nat, put: Entry)
    | Leaving(mu: nat, out: Option<Value>)

  datatype Call = Call(key: Key, ttl: int, phase: Phase)

  /** What one sees of the calls and the cache from outside. */
  datatype Event =
    | Ticked(to: int)
    | Began(id: nat, key: Key, ttl: int)
    | LoadStarts(key: Key, at: int)
    | Yields(id: nat, result: Option<Value>)
    | Stamps(id: nat, at: int)
    | Stored(id: nat, key: Key, value: Value, deadline: Option<int>)
    | Hit(id: nat, key: Key, value: Value, deadline: Option<int>, at: int)
    | Returned(id: nat, result: Option<Value>)
    | Evicted(key: Key)
    | Purged

  datatype State = State(clock: int, items: map<Key, Entry>, mutexes: map<Key, nat>, made: nat, held: map<nat, nat>,
                         calls: map<nat, Call>, log: seq<Event>)

  datatype Action =
    | Tick(to: int)
    | Begin(id: nat, key: Key, ttl: int)
    | Peek(id: nat)
    | Judge(id: nat)
    | FindLock(id: nat)
    | Acquire(id: nat)
    | Repeek(id: nat)
    | Rejudge(id: nat)
    | Finish(id: nat, result: Option<Value>)
    | Stamp(id: nat)
    | Store(id: nat)
    | Leave(id: nat)
    | Evict(key: Key)
    | Purge

  function Init(): State {
    State(0, map[], map[], 0, map[], map[], [])
  }

  predicate Enabled(s: State, a: Action) {
    match a
    case Tick(_) => true
    case Begin(id, _, _) => id !in s.calls
    case Peek(id) => id in s.calls && s.calls[id].phase.Looking?
    case Judge(id) => id in s.calls && s.calls[id].phase.Peeked?
    case FindLock(id) => id in s.calls && s.calls[id].phase.Missed?
    case Acquire(id) => id in s.calls && s.calls[id].phase.Waiting? && s.calls[id].phase.mu !in s.held
    case Repeek(id) => id in s.calls && s.calls[id].phase.Rechecking?
    case Rejudge(id) => id in s.calls && s.calls[id].phase.Repeeked?
    case Finish(id, _) => id in s.calls && s.calls[id].phase.Loading?
    case Stamp(id) => id in s.calls && s.calls[id].phase.Loaded?
    case Store(id) => id in s.calls && s.calls[id].phase.Stamped?
    case Leave(id) => id in s.calls && (s.calls[id].phase.Leaving? || s.calls[id].phase.Answering?)
    case Evict(_) => true
    case Purge => true
  }

  function To(s: State, id: nat, p: Phase): State
    requires id in s.calls
  {
    s.(calls := s.calls[id := s.calls[id].(phase := p)])
  }

  function Note(s: State, e: Event): State {
    s.(log := s.log + [e])
  }

  function Peeking(s: State, k: Key): Option<Entry> {
    if k in s.items then Some(s.items[k]) else None
  }

  function Apply(s: State, a: Action): State
    requires Enabled(s, a)
  {
    match a
    case Tick(to) => Note(s.(clock := to), Ticked(to))
    case Begin(id, key, ttl) => Note(s.(calls := s.calls[id := Call(key, ttl, Looking)]), Began(id, key, ttl))
    case Peek(id) =>
      var e := Peeking(s, s.calls[id].key);
      To(s, id, if e.Some? then Peeked(e.value) else Missed)
    case Judge(id) =>
      var e := s.calls[id].phase.e;
      if Expired(e, s.clock) then To(s, id, Missed)
      else Note(To(s, id, Answering(e.value)), Hit(id, s.calls[id].key, e.value, e.deadline, s.clock))
    case FindLock(id) =>
      var k := s.calls[id].key;
      if k in s.mutexes then To(s, id, Waiting(s.mutexes[k]))
      else To(s.(mutexes := s.mutexes[k := s.made], made := s.made + 1), id, Waiting(s.made))
    case Acquire(id) =>
      var mu := s.calls[id].phase.mu;
      To(s.(held := s.held[mu := id]), id, Rechecking(mu))
    case Repeek(id) =>
      To(s, id, Repeeked(s.calls[id].phase.mu, Peeking(s, s.calls[id].key)))
    case Rejudge(id) =>
      var k, p := s.calls[id].key, s.calls[id].phase;
      if p.found.Some? && !Expired(p.found.value, s.clock) then
        var e := p.found.value;
        Note(To(s, id, Leaving(p.mu, Some(e.value))), Hit(id, k, e.value, e.deadline, s.clock))
      else Note(To(s, id, Loading(p.mu)), LoadStarts(k, s.clock))
    case Finish(id, result) =>
      var mu := s.calls[id].phase.mu;
      Note(To(s, id, if result.Some? then Loaded(mu, result.value) else Leaving(mu, None)), Yields(id, result))
    case Stamp(id) =>
      var p, ttl := s.calls[id].phase, s.calls[id].ttl;
      Note(To(s, id, Stamped(p.mu, Entry(p.v, if ttl > 0 then Some(s.clock + ttl) else None))), Stamps(id, s.clock))
    case Store(id) =>
      var k, p := s.calls[id].key, s.calls[id].phase;
      Note(To(s.(items := s.items[k := p.put]), id, Leaving(p.mu, Some(p.put.value))),
        Stored(id, k, p.put.value, p.put.deadline))
    case Leave(id) =>
      var p := s.calls[id].phase;
      if p.Answering? then Note(s.(calls := s.calls - {id}), Returned(id, Some(p.hit)))
      else Note(s.(calls := s.calls - {id}, held := s.held - {p.mu}), Returned(id, p.out))
    case Evict(key) => Note(s.(items := s.items - {key}), Evicted(key))
    case Purge => Note(s.(items := map[]), Purged)
  }

  predicate Runs(s: State, acts: seq<Action>)
    decreases |acts|, 0
  {
    acts == [] || (Runs(s, acts[..|acts| - 1]) && Enabled(Exec(s, acts[..|acts| - 1]), acts[|acts| - 1]))
  }

  function Exec(s: State, acts: seq<Action>): State
    requires Runs(s, acts)
    decreases |acts|, 1
  {
    if acts == [] then s else Apply(Exec(s, acts[..|acts| - 1]), acts[|acts| - 1])
  }

  /** A call that has not asked for its key's lock. */
  predicate Unlocked(p: Phase) {
    p.Looking? || p.Peeked? || p.Answering? || p.Missed?
  }

  predicate HasLock(p: Phase) {
    !(Unlocked(p) || p.Waiting?)
  }

  /** Each key has one mutex of its own, and a call past its lock is the one that holds it. */
  ghost predicate Locks(s: State) {
    && (forall k <- s.mutexes :: s.mutexes[k] < s.made)
    && (forall k <- s.mutexes, l <- s.mutexes :: s.mutexes[k] == s.mutexes[l] ==> k == l)
    && (forall id <- s.calls :: CallLocks(s, id))
  }

  ghost predicate CallLocks(s: State, id: nat)
    requires id in s.calls
  {
    var c := s.calls[id];
    Unlocked(c.phase) ||
    (&& c.key in s.mutexes && c.phase.mu == s.mutexes[c.key]
     && (HasLock(c.phase) ==> c.phase.mu in s.held && s.held[c.phase.mu] == id))
  }

  /** What an event does to the entries cached. */
  function CachedNext(before: map<Key, Option<int>>, e: Event): map<Key, Option<int>> {
    match e
    case Stored(_, k, _, d) => before[k := d]
    case Evicted(k) => before - {k}
    case Purged => map[]
    case _ => before
  }

  /** The entries the log says are cached. */
  function Cached(log: seq<Event>): map<Key, Option<int>> {
    if log == [] then map[] else CachedNext(Cached(log[..|log| - 1]), log[|log| - 1])
  }

  /** A load starts only when nothing cached that has not expired stands in its way. */
  predicate Allowed(before: map<Key, Option<int>>, e: Event) {
    e.LoadStarts? && e.key in before ==> before[e.key].Some? && e.at > before[e.key].value
  }

  ghost predicate Justified(log: seq<Event>) {
    log == [] || (Justified(log[..|log| - 1]) && Allowed(Cached(log[..|log| - 1]), log[|log| - 1]))
  }

  ghost predicate Inv(s: State) {
    && Locks(s)
    && LogTells(s.items, s.log)
    && (forall id <- s.calls :: s.calls[id].phase.Repeeked? ==> StillThere(s, s.calls[id]))
  }

  /** What a call saw under the lock can only have been evicted since: nobody else stores its key. */
  ghost predicate StillThere(s: State, c: Call)
    requires c.phase.Repeeked?
  {
    c.key in s.items ==> c.phase.found == Some(s.items[c.key])
  }

  lemma MutexesKept(s: State, a: Action)
    requires Locks(s) && Enabled(s, a)
    ensures var t := Apply(s, a);
      && (forall k <- t.mutexes :: t.mutexes[k] < t.made)
      && (forall k <- t.mutexes, l <- t.mutexes :: t.mutexes[k] == t.mutexes[l] ==> k == l)
      && (forall k <- s.mutexes :: k in t.mutexes && t.mutexes[k] == s.mutexes[k])
  {
  }

  predicate ActsFor(a: Action, id: nat) {
    match a
    case Tick(_) => false
    case Begin(i, _, _) => i == id
    case Peek(i) => i == id
    case Judge(i) => i == id
    case FindLock(i) => i == id
    case Acquire(i) => i == id
    case Repeek(i) => i == id
    case Rejudge(i) => i == id
    case Finish(i, _) => i == id
    case Stamp(i) => i == id
    case Store(i) => i == id
    case Leave(i) => i == id
    case Evict(_) => false
    case Purge => false
  }

  lemma OwnCallKept(s: State, a: Action, id: nat)
    requires Locks(s) && Enabled(s, a) && id in Apply(s, a).calls && ActsFor(a, id)
    ensures CallLocks(Apply(s, a), id)
  {
    assert id in s.calls ==> CallLocks(s, id);
  }

  /** A lock changes hands only by its holder's leaving, and is taken only when free. */
  lemma HeldKept(s: State, a: Action, id: nat, mu: nat)
    requires Enabled(s, a) && mu in s.held && s.held[mu] == id
    requires a.Leave? && s.calls[a.id].phase.Leaving? ==> s.calls[a.id].phase.mu != mu
    ensures mu in Apply(s, a).held && Apply(s, a).held[mu] == id
  {
  }

  lemma OtherCallKept(s: State, a: Action, id: nat)
    requires Locks(s) && Enabled(s, a) && id in Apply(s, a).calls && !ActsFor(a, id)
    ensures CallLocks(Apply(s, a), id)
  {
    MutexesKept(s, a);
    assert id in s.calls && Apply(s, a).calls[id] == s.calls[id];
    assert CallLocks(s, id);
    if HasLock(s.calls[id].phase) {
      if a.Leave? {
        assert CallLocks(s, a.id);
      }
      HeldKept(s, a, id, s.calls[id].phase.mu);
    }
  }

  lemma LocksKept(s: State, a: Action)
    requires Locks(s) && Enabled(s, a)
    ensures Locks(Apply(s, a))
  {
    MutexesKept(s, a);
    forall id <- Apply(s, a).calls ensures CallLocks(Apply(s, a), id) {
      if ActsFor(a, id) {
        OwnCallKept(s, a, id);
      } else {
        OtherCallKept(s, a, id);
      }
    }
  }

  /** At most one loader runs per key. */
  lemma OneLoader(s: State, i: nat, j: nat)
    requires Locks(s) && i in s.calls && j in s.calls && s.calls[i].key == s.calls[j].key
    requires HasLock(s.calls[i].phase) && HasLock(s.calls[j].phase)
    ensures i == j
  {
    assert CallLocks(s, i) && CallLocks(s, j);
  }

  lemma LoadersDiffer(s: State, i: nat, j: nat)
    requires Locks(s) && i in s.calls && j in s.calls && i != j
    requires HasLock(s.calls[i].phase) && HasLock(s.calls[j].phase)
    ensures s.calls[i].key != s.calls[j].key
  {
    assert CallLocks(s, i) && CallLocks(s, j);
  }

  /** Other callers leave the key of a call that holds its lock alone, or evict it. */
  lemma OthersOnlyEvict(s: State, a: Action, id: nat)
    requires Locks(s) && Enabled(s, a) && id in s.calls && HasLock(s.calls[id].phase)
    requires a.Store? ==> a.id != id
    ensures var k, t := s.calls[id].key, Apply(s, a); k in t.items ==> k in s.items && t.items[k] == s.items[k]
  {
    if a.Store? {
      LoadersDiffer(s, a.id, id);
    }
  }

  lemma RepeekSees(s: State, a: Action)
    requires Enabled(s, a) && a.Repeek?
    ensures StillThere(Apply(s, a), Apply(s, a).calls[a.id])
  {
  }

  /** Only a second look puts a call in the phase that remembers it. */
  lemma RepeekedBefore(s: State, a: Action, id: nat)
    requires Enabled(s, a) && id in Apply(s, a).calls && Apply(s, a).calls[id].phase.Repeeked?
    requires !(a.Repeek? && a.id == id)
    ensures id in s.calls && s.calls[id] == Apply(s, a).calls[id] && (a.Store? ==> a.id != id)
  {
  }

  lemma StillThereKept(s: State, a: Action, id: nat)
    requires Inv(s) && Enabled(s, a) && id in Apply(s, a).calls && Apply(s, a).calls[id].phase.Repeeked?
    ensures StillThere(Apply(s, a), Apply(s, a).calls[id])
  {
    if a.Repeek? && a.id == id {
      RepeekSees(s, a);
    } else {
      RepeekedBefore(s, a, id);
      assert StillThere(s, s.calls[id]);
      OthersOnlyEvict(s, a, id);
    }
  }

  /** The log tells what is cached, and every load in it is justified. */
  ghost predicate LogTells(items: map<Key, Entry>, log: seq<Event>) {
    && items.Keys == Cached(log).Keys
    && (forall k <- items :: items[k].deadline == Cached(log)[k])
    && Justified(log)
  }

  lemma OneMoreEvent(log: seq<Event>, e: Event)
    ensures Cached(log + [e]) == CachedNext(Cached(log), e)
    ensures Justified(log + [e]) <==> (Justified(log) && Allowed(Cached(log), e))
  {
    assert (log + [e])[..|log|] == log;
  }

  /** A load that starts found nothing under its lock, or something that has expired. */
  lemma LoadTells(items: map<Key, Entry>, log: seq<Event>, k: Key, at: int)
    requires LogTells(items, log) && (k in items ==> Expired(items[k], at))
    ensures LogTells(items, log + [LoadStarts(k, at)])
  {
    OneMoreEvent(log, LoadStarts(k, at));
  }

  lemma StoreTells(items: map<Key, Entry>, log: seq<Event>, id: nat, k: Key, e: Entry)
    requires LogTells(items, log)
    ensures LogTells(items[k := e], log + [Stored(id, k, e.value, e.deadline)])
  {
    OneMoreEvent(log, Stored(id, k, e.value, e.deadline));
  }

  /** At most one event that concerns no entry. */
  lemma OtherTells(items: map<Key, Entry>, log: seq<Event>, more: seq<Event>)
    requires LogTells(items, log) && |more| <= 1
    requires forall e <- more :: !(e.Stored? || e.Evicted? || e.Purged? || e.LoadStarts?)
    ensures LogTells(items, log + more)
  {
    if more == [] {
      assert log + more == log;
    } else {
      assert more == [more[0]];
      OneMoreEvent(log, more[0]);
    }
  }

  /** What an action logs: at most one event. */
  function Logs(s: State, a: Action): seq<Event>
    requires Enabled(s, a)
  {
    Apply(s, a).log[|s.log|..]
  }

  lemma AtMostOne(s: State, a: Action)
    requires Enabled(s, a)
    ensures |Logs(s, a)| <= 1 && Apply(s, a).log == s.log + Logs(s, a)
  {
  }

  lemma EvictTells(items: map<Key, Entry>, log: seq<Event>, k: Key)
    requires LogTells(items, log)
    ensures LogTells(items - {k}, log + [Evicted(k)])
    ensures LogTells(map[], log + [Purged])
  {
    OneMoreEvent(log, Evicted(k));
    OneMoreEvent(log, Purged);
  }

  lemma RejudgeTells(s: State, a: Action)
    requires LogTells(s.items, s.log) && Enabled(s, a) && a.Rejudge? && StillThere(s, s.calls[a.id])
    ensures LogTells(Apply(s, a).items, Apply(s, a).log)
  {
    if Apply(s, a).calls[a.id].phase.Loading? {
      LoadTells(s.items, s.log, s.calls[a.id].key, s.clock);
    } else {
      AtMostOne(s, a);
      OtherTells(s.items, s.log, Logs(s, a));
    }
  }

  lemma OthersTell(s: State, a: Action)
    requires LogTells(s.items, s.log) && Enabled(s, a) && !(a.Rejudge? || a.Store? || a.Evict? || a.Purge?)
    ensures LogTells(Apply(s, a).items, Apply(s, a).log)
  {
    AtMostOne(s, a);
    OtherTells(s.items, s.log, Logs(s, a));
    assert Apply(s, a).items == s.items;
  }

  lemma LogKept(s: State, a: Action)
    requires LogTells(s.items, s.log) && Enabled(s, a) && (a.Rejudge? ==> StillThere(s, s.calls[a.id]))
    ensures LogTells(Apply(s, a).items, Apply(s, a).log)
  {
    match a
    case Rejudge(_) => RejudgeTells(s, a);
    case Store(id) => StoreTells(s.items, s.log, id, s.calls[id].key, s.calls[id].phase.put);
    case Evict(k) => EvictTells(s.items, s.log, k);
    case Purge => EvictTells(s.items, s.log, []);
    case _ => OthersTell(s, a);
  }

  lemma StepKeeps(s: State, a: Action)
    requires Inv(s) && Enabled(s, a)
    ensures Inv(Apply(s, a))
  {
    var t := Apply(s, a);
    LocksKept(s, a);
    LogKept(s, a);
    forall id <- t.calls | t.calls[id].phase.Repeeked? ensures StillThere(t, t.calls[id]) {
      StillThereKept(s, a, id);
    }
  }

  lemma {:induction false} RunKeeps(acts: seq<Action>)
    requires Runs(Init(), acts)
    ensures Inv(Exec(Init(), acts))
  {
    if acts != [] {
      RunKeeps(acts[..|acts| - 1]);
      StepKeeps(Exec(Init(), acts[..|acts| - 1]), acts[|acts| - 1]);
    }
  }

  ghost predicate Loads(s: State, id: nat) {
    id in s.calls && s.calls[id].phase.Loading?
  }

  /** Under every interleaving at most one loader runs per key at a time. */
  lemma SingleLoaderPerKey(acts: seq<Action>, i: nat, j: nat)
    requires Runs(Init(), acts) && i != j
    requires Loads(Exec(Init(), acts), i) && Loads(Exec(Init(), acts), j)
    ensures Exec(Init(), acts).calls[i].key != Exec(Init(), acts).calls[j].key
  {
    RunKeeps(acts);
    var s := Exec(Init(), acts);
    if s.calls[i].key == s.calls[j].key {
      OneLoader(s, i, j);
      assert false;
    }
  }

  /** The log between two events leaves k's entry alone. */
  ghost predicate Untouched(log: seq<Event>, i: nat, j: nat, k: Key) {
    forall m :: i < m < j <= |log| ==> !log[m].Purged? && (log[m].Stored? || log[m].Evicted? ==> log[m].key != k)
  }

  lemma {:induction false} StaysCached(log: seq<Event>, i: nat, j: nat, k: Key)
    requires i < j <= |log| && log[i].Stored? && log[i].key == k && Untouched(log, i, j, k)
    ensures k in Cached(log[..j]) && Cached(log[..j])[k] == log[i].deadline
  {
    assert log[..j][..j - 1] == log[..j - 1];
    if i < j - 1 {
      StaysCached(log, i, j - 1, k);
    }
  }

  lemma {:induction false} JustifiedAt(log: seq<Event>, j: nat)
    requires Justified(log) && j < |log|
    ensures Justified(log[..j + 1])
  {
    if j + 1 == |log| {
      assert log[..j + 1] == log;
    } else {
      JustifiedAt(log[..|log| - 1], j);
      assert log[..|log| - 1][..j + 1] == log[..j + 1];
    }
  }

  /** Under every interleaving, once a value is stored for k, no loader for k starts before the
      value's deadline has passed, unless k is evicted, purged or stored again. In particular a
      value stored without a TTL is never loaded again. */
  lemma NoLoadBeforeTheDeadline(acts: seq<Action>, i: nat, j: nat, k: Key)
    requires Runs(Init(), acts)
    requires var log := Exec(Init(), acts).log;
      i < j < |log| && log[i].Stored? && log[i].key == k && log[j].LoadStarts? && log[j].key == k &&
        Untouched(log, i, j, k)
    ensures var log := Exec(Init(), acts).log; log[i].deadline.Some? && log[j].at > log[i].deadline.value
  {
    RunKeeps(acts);
    var log := Exec(Init(), acts).log;
    StaysCached(log, i, j, k);
    JustifiedAt(log, j);
    assert log[..j + 1][..j] == log[..j];
  }

  /** The table of key locks: one mutex per key for the process's life, in 256 shards. */
  class KeyLocks {
    const shards: array<map<Key, int>>
    var made: nat
    ghost var mutexes: map<Key, int>

    ghost predicate Valid()
      reads this, shards
    {
      && shards.Length == 256
      && (forall k: Key :: k in mutexes <==> k in shards[Shard(k)])
      && (forall k: Key :: k in mutexes ==> mutexes[k] == shards[Shard(k)][k] && 0 <= mutexes[k] < made)
      && (forall k: Key, l: Key :: k in mutexes && l in mutexes && mutexes[k] == mutexes[l] ==> k == l)
    }

    constructor ()
      ensures Valid() && mutexes == map[] && fresh(shards)
    {
      shards := new map<Key, int>[256](_ => map[]);
      made := 0;
      mutexes := map[];
    }

    /** The key's mutex, made on first use: what the machine's `FindLock` does. */
    method KeyLock(k: Key) returns (mu: int)
      requires Valid()
      modifies this, shards
      ensures Valid() && k in mutexes && mu == mutexes[k]
      ensures mutexes == if k in old(mutexes) then old(mutexes) else old(mutexes)[k := old(made)]
    {
      var i := Shard(k);
      if k !in shards[i] {
        shards[i] := shards[i][k := made];
        mutexes := mutexes[k := made];
        made := made + 1;
      }
      mu := shards[i][k];
    }
  }

  function Fnv32(k: Key): bv32 {
    if k == [] then 0x811c9dc5 else (Fnv32(k[..|k| - 1]) ^ (k[|k| - 1] as bv32)) * 0x01000193
  }

  function Shard(k: Key): (i: nat)
    ensures i < 256
  {
    (Fnv32(k) as nat) % 256
  }
}
