/** Where the values of the query cache come from: every value stored is what a loader returned,
    every hit is a stored value within its deadline, and every call returns its hit or what its
    own loader returned. */
module SingleFlightValues {
  import opened Basics
  import opened SingleFlight

  /** What the log says of the latest call under an id: its key and TTL, what its loader returned,
      when the deadline was computed, and what it found in the cache. */
  datatype Story = Story(key: Key, ttl: int, yielded: Option<Option<Value>>, stamp: Option<int>, hit: Option<Value>)

  function StoryNext(before: Option<Story>, id: nat, e: Event): Option<Story> {
    match e
    case Began(i, k, ttl) => if i == id then Some(Story(k, ttl, None, None, None)) else before
    case Yields(i, r) => if i == id && before.Some? then Some(before.value.(yielded := Some(r))) else before
    case Stamps(i, at) => if i == id && before.Some? then Some(before.value.(stamp := Some(at))) else before
    case Hit(i, _, v, _, _) => if i == id && before.Some? then Some(before.value.(hit := Some(v))) else before
    case _ => before
  }

  function StoryOf(log: seq<Event>, id: nat): Option<Story> {
    if log == [] then None else StoryNext(StoryOf(log[..|log| - 1], id), id, log[|log| - 1])
  }

  /** The clock, as the log tells it. */
  function ClockOf(log: seq<Event>): int {
    if log == [] then 0
    else
      var e := log[|log| - 1];
      if e.Ticked? then e.to else ClockOf(log[..|log| - 1])
  }

  ghost predicate WasStored(log: seq<Event>, k: Key, e: Entry) {
    exists i, id :: 0 <= i < |log| && log[i] == Stored(id, k, e.value, e.deadline)
  }

  /** The deadline of a value: the clock at the stamp plus the call's TTL, none without a TTL. */
  predicate Timed(story: Story, deadline: Option<int>) {
    if story.ttl > 0 then story.stamp.Some? && deadline == Some(story.stamp.value + story.ttl) else deadline == None
  }

  /** What an event promises, given what was logged before it. */
  ghost predicate Honest(before: seq<Event>, e: Event) {
    match e
    case Stored(id, k, v, d) =>
      var story := StoryOf(before, id);
      story.Some? && story.value.key == k && story.value.yielded == Some(Some(v)) && Timed(story.value, d)
    case Hit(id, k, v, d, at) =>
      var story := StoryOf(before, id);
      && story.Some? && story.value.key == k && WasStored(before, k, Entry(v, d))
      && at == ClockOf(before) && (d.Some? ==> at <= d.value)
    case LoadStarts(_, at) => at == ClockOf(before)
    case Stamps(_, at) => at == ClockOf(before)
    case Returned(id, r) =>
      var story := StoryOf(before, id);
      story.Some? && if story.value.hit.Some? then r == story.value.hit else story.value.yielded == Some(r)
    case _ => true
  }

  ghost predicate AllHonest(log: seq<Event>) {
    forall j :: 0 <= j < |log| ==> Honest(log[..j], log[j])
  }

  /** A call in progress agrees with its story. */
  predicate StoryTells(story: Story, c: Call) {
    && story.key == c.key && story.ttl == c.ttl
    && match c.phase
       case Answering(v) => story.hit == Some(v)
       case Loaded(_, v) => story.hit == None && story.yielded == Some(Some(v))
       case Stamped(_, put) =>
         story.hit == None && story.yielded == Some(Some(put.value)) && Timed(story, put.deadline)
       case Leaving(_, out) => if story.hit.Some? then out == story.hit else story.yielded == Some(out)
       case _ => story.hit == None
  }

  /** The entry a call is looking at, if it is. */
  function Sight(p: Phase): Option<Entry> {
    match p
    case Peeked(e) => Some(e)
    case Repeeked(_, found) => found
    case _ => None
  }

  ghost predicate CallTells(log: seq<Event>, id: nat, c: Call) {
    && StoryOf(log, id).Some? && StoryTells(StoryOf(log, id).value, c)
    && (Sight(c.phase).Some? ==> WasStored(log, c.key, Sight(c.phase).value))
  }

  ghost predicate Tells(s: State) {
    && AllHonest(s.log) && s.clock == ClockOf(s.log)
    && (forall k <- s.items :: WasStored(s.log, k, s.items[k]))
    && (forall id <- s.calls :: CallTells(s.log, id, s.calls[id]))
  }

  /** At most one more event, if it is honest, keeps the log honest. */
  lemma OneMore(log: seq<Event>, more: seq<Event>)
    requires AllHonest(log) && |more| <= 1 && forall e <- more :: Honest(log, e)
    ensures AllHonest(log + more)
  {
    var all := log + more;
    forall j | 0 <= j < |all| ensures Honest(all[..j], all[j]) {
      if j < |log| {
        assert all[..j] == log[..j];
      } else {
        assert all[..j] == log && all[j] == more[0];
      }
    }
  }

  lemma StoryStep(log: seq<Event>, more: seq<Event>, id: nat)
    requires |more| <= 1
    ensures StoryOf(log + more, id) == if more == [] then StoryOf(log, id) else StoryNext(StoryOf(log, id), id, more[0])
  {
    if more == [] {
      assert log + more == log;
    } else {
      assert (log + more)[..|log|] == log;
    }
  }

  lemma StoredStays(log: seq<Event>, more: seq<Event>, k: Key, x: Entry)
    ensures WasStored(log, k, x) ==> WasStored(log + more, k, x)
    ensures (exists e <- more :: e.Stored? && e.key == k && Entry(e.value, e.deadline) == x) ==>
      WasStored(log + more, k, x)
  {
    if WasStored(log, k, x) {
      var i, id :| 0 <= i < |log| && log[i] == Stored(id, k, x.value, x.deadline);
      assert (log + more)[i] == Stored(id, k, x.value, x.deadline);
    }
    if e :| e in more && e.Stored? && e.key == k && Entry(e.value, e.deadline) == x {
      var i :| 0 <= i < |more| && more[i] == e;
      assert (log + more)[|log| + i] == Stored(e.id, k, x.value, x.deadline);
    }
  }

  lemma HitIsHonest(s: State, a: Action)
    requires Tells(s) && Enabled(s, a) && (a.Judge? || a.Rejudge?)
    ensures forall e <- Logs(s, a) :: Honest(s.log, e)
  {
    assert CallTells(s.log, a.id, s.calls[a.id]);
    assert Sight(s.calls[a.id].phase).Some? ==> WasStored(s.log, s.calls[a.id].key, Sight(s.calls[a.id].phase).value);
  }

  lemma StoreIsHonest(s: State, a: Action)
    requires Tells(s) && Enabled(s, a) && (a.Stamp? || a.Store?)
    ensures forall e <- Logs(s, a) :: Honest(s.log, e)
  {
    assert CallTells(s.log, a.id, s.calls[a.id]);
  }

  lemma LeaveIsHonest(s: State, a: Action)
    requires Tells(s) && Enabled(s, a) && a.Leave?
    ensures forall e <- Logs(s, a) :: Honest(s.log, e)
  {
    assert CallTells(s.log, a.id, s.calls[a.id]);
  }

  lemma OthersPromiseNothing(s: State, a: Action)
    requires Enabled(s, a) && !(a.Judge? || a.Rejudge? || a.Stamp? || a.Store? || a.Leave?)
    ensures forall e <- Logs(s, a) :: Honest(s.log, e)
  {
  }

  /** What an action logs is honest. */
  lemma LogsHonestly(s: State, a: Action)
    requires Tells(s) && Enabled(s, a)
    ensures forall e <- Logs(s, a) :: Honest(s.log, e)
  {
    if a.Judge? || a.Rejudge? {
      HitIsHonest(s, a);
    } else if a.Stamp? || a.Store? {
      StoreIsHonest(s, a);
    } else if a.Leave? {
      LeaveIsHonest(s, a);
    } else {
      OthersPromiseNothing(s, a);
    }
  }

  lemma ItemsTell(s: State, a: Action, k: Key)
    requires Tells(s) && Enabled(s, a) && k in Apply(s, a).items
    ensures WasStored(Apply(s, a).log, k, Apply(s, a).items[k])
  {
    AtMostOne(s, a);
    if a.Store? && k == s.calls[a.id].key {
      var put := s.calls[a.id].phase.put;
      assert Logs(s, a) == [Stored(a.id, k, put.value, put.deadline)];
      assert Logs(s, a)[0] in Logs(s, a);
      StoredStays(s.log, Logs(s, a), k, put);
    } else {
      StoredStays(s.log, Logs(s, a), k, s.items[k]);
    }
  }

  /** An action's event speaks of no other call. */
  lemma OthersStory(s: State, a: Action, id: nat)
    requires Enabled(s, a) && !ActsFor(a, id)
    ensures StoryOf(Apply(s, a).log, id) == StoryOf(s.log, id)
  {
    AtMostOne(s, a);
    StoryStep(s.log, Logs(s, a), id);
  }

  lemma OtherCallTells(s: State, a: Action, id: nat)
    requires Tells(s) && Enabled(s, a) && id in Apply(s, a).calls && !ActsFor(a, id)
    ensures CallTells(Apply(s, a).log, id, Apply(s, a).calls[id])
  {
    var c := s.calls[id];
    assert Apply(s, a).calls[id] == c && CallTells(s.log, id, c);
    OthersStory(s, a, id);
    SightStays(s, a, c);
  }

  lemma SightStays(s: State, a: Action, c: Call)
    requires Enabled(s, a) && (Sight(c.phase).Some? ==> WasStored(s.log, c.key, Sight(c.phase).value))
    ensures Sight(c.phase).Some? ==> WasStored(Apply(s, a).log, c.key, Sight(c.phase).value)
  {
    if Sight(c.phase).Some? {
      AtMostOne(s, a);
      StoredStays(s.log, Logs(s, a), c.key, Sight(c.phase).value);
    }
  }

  /** The acting call's story and phase move together. */
  ghost predicate Moves(s: State, a: Action, id: nat)
    requires Enabled(s, a)
  {
    var t := Apply(s, a);
    id in t.calls ==> StoryOf(t.log, id).Some? && StoryTells(StoryOf(t.log, id).value, t.calls[id])
  }

  lemma BeginMoves(s: State, a: Action, id: nat)
    requires Enabled(s, a) && a.Begin? && a.id == id
    ensures Moves(s, a, id)
  {
    AtMostOne(s, a);
    StoryStep(s.log, Logs(s, a), id);
  }

  lemma SilentMoves(s: State, a: Action, id: nat)
    requires Enabled(s, a) && id in s.calls && CallTells(s.log, id, s.calls[id]) && ActsFor(a, id)
    requires a.Peek? || a.FindLock? || a.Acquire? || a.Repeek?
    ensures Moves(s, a, id)
  {
    assert Apply(s, a).log == s.log;
  }

  lemma JudgeMoves(s: State, a: Action, id: nat)
    requires Enabled(s, a) && id in s.calls && CallTells(s.log, id, s.calls[id]) && a.Judge? && a.id == id
    ensures Moves(s, a, id)
  {
    AtMostOne(s, a);
    StoryStep(s.log, Logs(s, a), id);
  }

  lemma RejudgeMoves(s: State, a: Action, id: nat)
    requires Enabled(s, a) && id in s.calls && CallTells(s.log, id, s.calls[id]) && a.Rejudge? && a.id == id
    ensures Moves(s, a, id)
  {
    AtMostOne(s, a);
    StoryStep(s.log, Logs(s, a), id);
  }

  lemma LoadMoves(s: State, a: Action, id: nat)
    requires Enabled(s, a) && id in s.calls && CallTells(s.log, id, s.calls[id]) && ActsFor(a, id)
    requires a.Finish? || a.Stamp? || a.Store? || a.Leave?
    ensures Moves(s, a, id)
  {
    AtMostOne(s, a);
    StoryStep(s.log, Logs(s, a), id);
  }

  lemma OwnStory(s: State, a: Action, id: nat)
    requires Tells(s) && Enabled(s, a) && ActsFor(a, id)
    ensures Moves(s, a, id)
  {
    if a.Begin? {
      BeginMoves(s, a, id);
    } else {
      assert CallTells(s.log, id, s.calls[id]);
      if a.Peek? || a.FindLock? || a.Acquire? || a.Repeek? {
        SilentMoves(s, a, id);
      } else if a.Judge? {
        JudgeMoves(s, a, id);
      } else if a.Rejudge? {
        RejudgeMoves(s, a, id);
      } else {
        LoadMoves(s, a, id);
      }
    }
  }

  /** What a call looks at is in the cache when it looks. */
  lemma SightIsCached(s: State, a: Action, id: nat)
    requires Enabled(s, a) && id in Apply(s, a).calls && ActsFor(a, id)
    ensures var c := Apply(s, a).calls[id];
      Sight(c.phase).Some? ==> c.key in s.items && Sight(c.phase).value == s.items[c.key]
  {
  }

  lemma OwnCallTells(s: State, a: Action, id: nat)
    requires Tells(s) && Enabled(s, a) && id in Apply(s, a).calls && ActsFor(a, id)
    ensures CallTells(Apply(s, a).log, id, Apply(s, a).calls[id])
  {
    OwnStory(s, a, id);
    SightIsCached(s, a, id);
    SightStays(s, a, Apply(s, a).calls[id]);
  }

  lemma LogTells(s: State, a: Action)
    requires Tells(s) && Enabled(s, a)
    ensures AllHonest(Apply(s, a).log) && Apply(s, a).clock == ClockOf(Apply(s, a).log)
  {
    AtMostOne(s, a);
    LogsHonestly(s, a);
    OneMore(s.log, Logs(s, a));
    ClockTells(s, a);
  }

  lemma ClockStep(log: seq<Event>, more: seq<Event>)
    requires |more| <= 1
    ensures ClockOf(log + more) == if more != [] && more[0].Ticked? then more[0].to else ClockOf(log)
  {
    if more == [] {
      assert log + more == log;
    } else {
      assert (log + more)[..|log|] == log;
    }
  }

  /** Only a tick moves the clock, and only a tick says so. */
  lemma OnlyTicksTick(s: State, a: Action)
    requires Enabled(s, a)
    ensures a.Tick? ==> Logs(s, a) == [Ticked(a.to)] && Apply(s, a).clock == a.to
    ensures !a.Tick? ==> Apply(s, a).clock == s.clock && (Logs(s, a) == [] || !Logs(s, a)[0].Ticked?)
  {
  }

  lemma ClockTells(s: State, a: Action)
    requires Enabled(s, a) && s.clock == ClockOf(s.log)
    ensures Apply(s, a).clock == ClockOf(Apply(s, a).log)
  {
    AtMostOne(s, a);
    OnlyTicksTick(s, a);
    ClockStep(s.log, Logs(s, a));
  }

  lemma CallsTell(s: State, a: Action, id: nat)
    requires Tells(s) && Enabled(s, a) && id in Apply(s, a).calls
    ensures CallTells(Apply(s, a).log, id, Apply(s, a).calls[id])
  {
    if ActsFor(a, id) {
      OwnCallTells(s, a, id);
    } else {
      OtherCallTells(s, a, id);
    }
  }

  lemma StepTells(s: State, a: Action, t: State)
    requires Tells(s) && Enabled(s, a) && t == Apply(s, a)
    ensures Tells(t)
  {
    LogTells(s, a);
    forall k <- t.items ensures WasStored(t.log, k, t.items[k]) {
      ItemsTell(s, a, k);
    }
    forall id <- t.calls ensures CallTells(t.log, id, t.calls[id]) {
      CallsTell(s, a, id);
    }
  }

  lemma {:induction false} AlwaysTells(acts: seq<Action>)
    requires Runs(Init(), acts)
    ensures Tells(Exec(Init(), acts))
  {
    if acts != [] {
      AlwaysTells(acts[..|acts| - 1]);
      StepTells(Exec(Init(), acts[..|acts| - 1]), acts[|acts| - 1], Exec(Init(), acts));
    }
  }

  /** Some interleaving of calls leads to this state. */
  ghost predicate Reached(s: State) {
    exists acts :: Runs(Init(), acts) && Exec(Init(), acts) == s
  }

  lemma ReachedTells(s: State)
    requires Reached(s)
    ensures Tells(s)
  {
    var acts :| Runs(Init(), acts) && Exec(Init(), acts) == s;
    AlwaysTells(acts);
  }

  /** The event stores what the loader of the call with this story returned, with the TTL added to
      the clock at the stamp as its deadline, and none without a TTL. */
  predicate AsLoaded(story: Option<Story>, e: Event)
    requires e.Stored?
  {
    && story.Some? && story.value.key == e.key && story.value.yielded == Some(Some(e.value))
    && (story.value.ttl <= 0 ==> e.deadline == None)
    && (story.value.ttl > 0 ==>
          story.value.stamp.Some? && e.deadline == Some(story.value.stamp.value + story.value.ttl))
  }

  /** Under every interleaving a value stored for k is what the storing call's own loader
      returned, with its TTL added to the clock at the stamp as its deadline, and none without a
      TTL. */
  lemma StoredValuesAreLoaded(s: State, j: nat)
    requires Reached(s) && j < |s.log| && s.log[j].Stored?
    ensures AsLoaded(StoryOf(s.log[..j], s.log[j].id), s.log[j])
  {
    ReachedTells(s);
    StoredIsHonest(s.log, j);
  }

  lemma StoredIsHonest(log: seq<Event>, j: nat)
    requires AllHonest(log) && j < |log| && log[j].Stored?
    ensures AsLoaded(StoryOf(log[..j], log[j].id), log[j])
  {
    assert Honest(log[..j], log[j]);
  }

  /** Every entry in the cache was stored by such a call. */
  lemma CachedValuesWereStored(s: State, k: Key)
    requires Reached(s) && k in s.items
    ensures exists i, id :: 0 <= i < |s.log| && s.log[i] == Stored(id, k, s.items[k].value, s.items[k].deadline)
  {
    ReachedTells(s);
    assert WasStored(s.log, k, s.items[k]);
  }

  /** The instants in the log are readings of the clock. */
  lemma InstantsAreClockReadings(s: State, j: nat)
    requires Reached(s) && j < |s.log|
    ensures var e := s.log[j]; e.Stamps? || e.LoadStarts? || e.Hit? ==> e.at == ClockOf(s.log[..j])
  {
    ReachedTells(s);
    assert Honest(s.log[..j], s.log[j]);
  }

  /** A hit is a value stored for that key, within its deadline. */
  lemma HitsAreFresh(s: State, j: nat)
    requires Reached(s) && j < |s.log| && s.log[j].Hit?
    ensures var e := s.log[j];
      && (exists i, id :: 0 <= i < j && s.log[i] == Stored(id, e.key, e.value, e.deadline))
      && (e.deadline.Some? ==> e.at <= e.deadline.value)
  {
    ReachedTells(s);
    var e := s.log[j];
    assert Honest(s.log[..j], e);
    assert WasStored(s.log[..j], e.key, Entry(e.value, e.deadline));
    var i, id :| 0 <= i < j && s.log[..j][i] == Stored(id, e.key, e.value, e.deadline);
    assert s.log[i] == Stored(id, e.key, e.value, e.deadline);
  }

  /** And a call returns its hit, or what its own loader returned, failure included. */
  lemma CallsReturnWhatTheyFound(s: State, j: nat)
    requires Reached(s) && j < |s.log| && s.log[j].Returned?
    ensures var story := StoryOf(s.log[..j], s.log[j].id);
      && story.Some?
      && (story.value.hit.Some? ==> s.log[j].result == story.value.hit)
      && (story.value.hit.None? ==> story.value.yielded == Some(s.log[j].result))
  {
    ReachedTells(s);
    assert Honest(s.log[..j], s.log[j]);
  }
}
