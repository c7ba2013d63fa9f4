/** What a given-up batch costs: a later acknowledgement of the same boot discards exactly
    the given-up events, and nothing ever brings them back. */
module GivenUp {
  import opened Wal
  import opened Pipeline
  import opened Loss

  function Evs(vs: seq<Envelope>): seq<Event> {
    seq(|vs|, i requires 0 <= i < |vs| => vs[i].ev)
  }

  /** The events between the handlers and ClickHouse, oldest first: the consumer's batch,
      the envelopes in flight, and the requests not yet written. */
  function Path(s: State): seq<Event> {
    s.batch + Evs(Flight(s)) + Unwritten(s)
  }

  function Unwritten(s: State): seq<Event> {
    (if s.syncer.Writing? then s.syncer.todo else []) + s.pending + s.queue
  }

  ghost predicate Distinct(es: seq<Event>) {
    forall i, j :: 0 <= i < j < |es| ==> es[i] != es[j]
  }

  ghost predicate InLog(s: State, e: Event) {
    exists i :: s.log.Holds(i, e)
  }

  /** Issued events, each once, none of them inserted or given up. */
  ghost predicate Fresh(es: seq<Event>, s: State) {
    && Distinct(es)
    && forall e <- es :: e in s.issued && e !in s.rows && e !in s.failed
  }

  ghost predicate LogFresh(s: State, unwritten: seq<Event>) {
    forall i, e :: s.log.Holds(i, e) ==> e in s.issued && e !in unwritten
  }

  /** The consumer acknowledges the last event it received, once that event is inserted. */
  ghost predicate TailOk(s: State) {
    && (s.batch != [] || s.acking ==> 0 < s.lastIdx == s.handed)
    && (s.batch != [] ==> forall e :: s.log.Holds(s.lastIdx, e) ==> e == s.batch[|s.batch| - 1])
    && (s.acking ==> forall e :: s.log.Holds(s.lastIdx, e) ==> e in s.rows)
  }

  /** No event is in two places at once, and every event anywhere was issued. */
  ghost predicate Unique(s: State) {
    && Fresh(Path(s), s)
    && LogFresh(s, Unwritten(s))
    && s.rows <= s.issued && s.failed <= s.issued && s.failed !! s.rows
    && (s.life.Booting? ==> forall e <- s.life.rows :: e in s.issued)
    && (s.life.Up? ==> TailOk(s))
  }

  lemma OneRemoved(es: seq<Event>, k: nat, s: State)
    requires k < |es| && Fresh(es, s)
    ensures Fresh(Dropped(es, k), s)
    ensures es[k] !in es[k + 1..]
  {
  }

  function Dropped(es: seq<Event>, k: nat): seq<Event>
    requires k < |es|
  {
    es[..k] + es[k + 1..]
  }

  lemma DropMiddle(a: seq<Event>, x: Event, c: seq<Event>)
    ensures (a + [x] + c)[|a|] == x && (a + [x] + c)[|a| + 1..] == c && Dropped(a + [x] + c, |a|) == a + c
  {
  }

  /** A write, successful or not, concerns the first unwritten event of the path. */
  lemma PathWrite(s: State, a: Action)
    requires s.log.Valid() && Enabled(s, a) && a.Write?
    ensures var t := Apply(s, a); var k := |s.batch| + |Flight(s)|;
      && k < |Path(s)| && Path(s)[k] == s.syncer.todo[0] && Path(s)[k + 1..] == Unwritten(t)
      && Unwritten(s) == [s.syncer.todo[0]] + Unwritten(t)
      && Path(t) == if a.ok then Path(s) else Dropped(Path(s), k)
  {
    UnwrittenWrite(s, a);
    FlightWrite(s, a);
    MoveUp(s.batch, Evs(Flight(s)), s.syncer.todo[0], Unwritten(Apply(s, a)));
  }

  /** Where the first unwritten event stands, what dropping it leaves, and that a write which
      moves it to the end of the flight leaves the path alone. */
  lemma MoveUp(batch: seq<Event>, flight: seq<Event>, x: Event, back: seq<Event>)
    ensures var path, k := batch + flight + ([x] + back), |batch| + |flight|;
      path[k] == x && path[k + 1..] == back && Dropped(path, k) == batch + (flight + []) + back &&
        path == batch + (flight + [x]) + back
  {
    DropMiddle(batch + flight, x, back);
    assert batch + flight + ([x] + back) == batch + flight + [x] + back;
    assert flight + [] == flight;
    assert batch + (flight + [x]) == batch + flight + [x];
  }

  lemma UnwrittenWrite(s: State, a: Action)
    requires s.log.Valid() && Enabled(s, a) && a.Write?
    ensures Unwritten(s) == [s.syncer.todo[0]] + Unwritten(Apply(s, a))
  {
    var todo := s.syncer.todo;
    Shift(todo[0], todo[1..], s.pending, s.queue);
    assert todo == [todo[0]] + todo[1..];
  }

  lemma Shift(x: Event, a: seq<Event>, b: seq<Event>, c: seq<Event>)
    ensures [x] + a + b + c == [x] + (a + b + c)
  {
  }

  lemma FlightWrite(s: State, a: Action)
    requires s.log.Valid() && Enabled(s, a) && a.Write?
    ensures Apply(s, a).batch == s.batch
    ensures Evs(Flight(Apply(s, a))) == Evs(Flight(s)) + if a.ok then [s.syncer.todo[0]] else []
  {
    WriteExtends(s, a);
    assert Evs(Flight(s)) + [] == Evs(Flight(s));
  }

  lemma PathSkip(s: State, a: Action)
    requires s.log.Valid() && Enabled(s, a) && a.Skip?
    ensures var t := Apply(s, a); var k := |s.batch| + |s.out|;
      k < |Path(s)| && Path(t) == Dropped(Path(s), k) && Unwritten(t) == Unwritten(s)
  {
    var t := Apply(s, a);
    var front := s.batch + Evs(s.out);
    var x := s.syncer.left[0].ev;
    var back := Evs(t.syncer.left) + Unwritten(s);
    assert Path(s) == front + [x] + back;
    assert Path(t) == front + back;
    DropMiddle(front, x, back);
  }

  /** The steps that change neither what is on the path nor its order. */
  predicate Still(a: Action) {
    match a
    case Enqueue(_) => false
    case Write(_) => false
    case Skip => false
    case InsertOk => false
    case InsertGivenUp => false
    case Crash => false
    case _ => true
  }

  lemma PathStill(s: State, a: Action)
    requires s.log.Valid() && Enabled(s, a) && Still(a)
    ensures Path(Apply(s, a)) == Path(s) && Unwritten(Apply(s, a)) == Unwritten(s)
  {
    var t := Apply(s, a);
    UnwrittenStill(s, a);
    if a.Recv? {
      assert Evs(Flight(s)) == [s.out[0].ev] + Evs(Flight(t));
      assert t.batch + Evs(Flight(t)) == s.batch + Evs(Flight(s));
    } else {
      FlightStill(s, a);
    }
  }

  lemma UnwrittenStill(s: State, a: Action)
    requires s.log.Valid() && Enabled(s, a) && Still(a)
    ensures Unwritten(Apply(s, a)) == Unwritten(s)
  {
    if a.Take? {
      assert s.queue == [s.queue[0]] + s.queue[1..];
    }
  }

  lemma FlightStill(s: State, a: Action)
    requires s.log.Valid() && Enabled(s, a) && Still(a) && !a.Recv?
    ensures Flight(Apply(s, a)) == Flight(s) && Apply(s, a).batch == s.batch
  {
    if a.Deliver? {
      assert s.syncer.left == [s.syncer.left[0]] + s.syncer.left[1..];
    } else {
      assert Apply(s, a).out == s.out;
    }
  }

  /** Whatever moves, the path only ever gains events at the end. */
  lemma PathSources(s: State, a: Action)
    requires s.log.Valid() && Enabled(s, a)
    ensures forall x <- Path(Apply(s, a)) :: x in Path(s) || x !in s.issued
  {
    var t := Apply(s, a);
    if a.Write? {
      PathWrite(s, a);
    } else if a.Skip? {
      PathSkip(s, a);
    } else if Still(a) {
      PathStill(s, a);
    }
  }

  lemma UniqueEnqueue(s: State, a: Action)
    requires Inv(s) && Unique(s) && Enabled(s, a) && a.Enqueue?
    ensures Unique(Apply(s, a))
  {
    var t := Apply(s, a);
    assert Path(t) == Path(s) + [a.ev] && Unwritten(t) == Unwritten(s) + [a.ev];
  }

  lemma UniqueSyncer(s: State, a: Action)
    requires Inv(s) && Unique(s) && Enabled(s, a)
    requires a.Take? || a.StartFlush? || a.SyncOk? || a.Reply? || a.EndFlush? || a.Deliver?
    ensures Unique(Apply(s, a))
  {
    var t := Apply(s, a);
    assert forall i, e :: s.log.Holds(i, e) <==> t.log.Holds(i, e);
    PathStill(s, a);
  }

  lemma UniqueWrite(s: State, a: Action)
    requires Inv(s) && Unique(s) && Enabled(s, a) && a.Write?
    ensures Unique(Apply(s, a))
  {
    WritePathFresh(s, a);
    WriteLogFresh(s, a);
    WriteTail(s, a);
    WriteElsewhere(s, a);
  }

  lemma WritePathFresh(s: State, a: Action)
    requires s.log.Valid() && Fresh(Path(s), s) && Enabled(s, a) && a.Write?
    ensures Fresh(Path(Apply(s, a)), Apply(s, a))
  {
    PathWrite(s, a);
    OneRemoved(Path(s), |s.batch| + |Flight(s)|, s);
    WriteElsewhere(s, a);
  }

  lemma WriteElsewhere(s: State, a: Action)
    requires s.log.Valid() && Enabled(s, a) && a.Write?
    ensures var t := Apply(s, a);
      t.rows == s.rows && t.failed == s.failed && t.issued == s.issued && t.life == s.life
  {
  }

  lemma WriteTail(s: State, a: Action)
    requires Inv(s) && TailOk(s) && Enabled(s, a) && a.Write?
    ensures TailOk(Apply(s, a))
  {
    WriteExtends(s, a);
  }

  lemma WriteLogFresh(s: State, a: Action)
    requires s.log.Valid() && Enabled(s, a) && a.Write? && Fresh(Path(s), s) && LogFresh(s, Unwritten(s))
    ensures LogFresh(Apply(s, a), Unwritten(Apply(s, a)))
  {
    PathWrite(s, a);
    OneRemoved(Path(s), |s.batch| + |Flight(s)|, s);
    WriteExtends(s, a);
    assert s.syncer.todo[0] in Path(s);
  }

  lemma UniqueSkip(s: State, a: Action)
    requires Inv(s) && Unique(s) && Enabled(s, a) && a.Skip?
    ensures Unique(Apply(s, a))
  {
    PathSkip(s, a);
    OneRemoved(Path(s), |s.batch| + |s.out|, s);
  }

  lemma UniqueInsert(s: State, a: Action)
    requires Inv(s) && Unique(s) && Enabled(s, a) && (a.InsertOk? || a.InsertGivenUp?)
    ensures Unique(Apply(s, a))
  {
    var t := Apply(s, a);
    BatchLeaves(s);
    assert Path(t) == Path(s)[|s.batch|..] && Unwritten(t) == Unwritten(s);
  }

  lemma UniqueStop(s: State, a: Action)
    requires Inv(s) && Unique(s) && Enabled(s, a) && (a.ConsumerReturns? || a.Stop?)
    ensures Unique(Apply(s, a))
  {
    PathStill(s, a);
  }

  lemma UniqueRecv(s: State, a: Action)
    requires Inv(s) && Unique(s) && Enabled(s, a) && a.Recv?
    ensures Unique(Apply(s, a))
  {
    PathStill(s, a);
    assert Flight(s)[0] == s.out[0] && Backed(s, s.out[0]);
    assert Flight(s)[0].idx == s.handed + 1;
  }

  lemma BatchLeaves(s: State)
    requires Fresh(Path(s), s)
    ensures Fresh(Path(s)[|s.batch|..], s)
    ensures forall e <- s.batch :: e in s.issued && e !in s.rows && e !in s.failed && e !in Path(s)[|s.batch|..]
  {
    var es := Path(s);
    assert forall i :: 0 <= i < |s.batch| ==> es[i] == s.batch[i];
  }

  lemma UniqueCrash(s: State, a: Action)
    requires Inv(s) && Unique(s) && Enabled(s, a) && a.Crash?
    ensures Unique(Apply(s, a))
  {
    var t := Apply(s, a);
    assert Path(t) == [] && Unwritten(t) == [];
    assert forall i, e :: t.log.Holds(i, e) ==> s.log.Holds(i, e);
  }

  lemma UniqueAck(s: State, a: Action)
    requires Inv(s) && Unique(s) && Enabled(s, a) && a.AckDone?
    ensures Unique(Apply(s, a))
  {
    LogOnlyShrinks(s, a);
    PathStill(s, a);
  }

  lemma UniqueHousekeeping(s: State, a: Action)
    requires Inv(s) && Unique(s) && Enabled(s, a) && (a.Cap? || a.BackgroundSync? || a.Damage? || a.Reboot?)
    ensures Unique(Apply(s, a))
  {
    LogOnlyShrinks(s, a);
    PathStill(s, a);
  }

  lemma LogOnlyShrinks(s: State, a: Action)
    requires Inv(s) && Enabled(s, a)
    requires a.AckDone? || a.Cap? || a.BackgroundSync? || a.Damage? || a.Crash? || a.Reboot?
    ensures forall i, e :: Apply(s, a).log.Holds(i, e) ==> s.log.Holds(i, e)
  {
    if a.AckDone? {
      AckRemovesExactly(s.log, s.lastIdx);
    } else if a.Cap? {
      CapRemovesAFront(s.log);
    }
  }

  lemma UniqueReplay(s: State, a: Action)
    requires Inv(s) && Unique(s) && Enabled(s, a)
    requires a.ReplayRead? || a.ReplayInsert? || a.ReplayDone?
    ensures Unique(Apply(s, a))
  {
    var t := Apply(s, a);
    PathStill(s, a);
    if a.ReplayRead? && s.log.Has(s.life.pos) {
      assert s.log.Holds(s.life.pos, s.log.Ev(s.life.pos));
    }
    if a.ReplayDone? {
      AckRemovesExactly(s.log, s.life.snap);
    }
    assert forall i, e :: t.log.Holds(i, e) ==> s.log.Holds(i, e);
  }

  lemma UniqueKeeps(s: State, a: Action)
    requires Inv(s) && Unique(s) && Enabled(s, a)
    ensures Unique(Apply(s, a))
  {
    if a.Write? {
      UniqueWrite(s, a);
    } else if a.Enqueue? {
      UniqueEnqueue(s, a);
    } else if a.Recv? {
      UniqueRecv(s, a);
    } else if a.Skip? {
      UniqueSkip(s, a);
    } else if a.InsertOk? || a.InsertGivenUp? {
      UniqueInsert(s, a);
    } else if a.ConsumerReturns? || a.Stop? {
      UniqueStop(s, a);
    } else if a.Crash? {
      UniqueCrash(s, a);
    } else if a.AckDone? {
      UniqueAck(s, a);
    } else if a.Cap? || a.BackgroundSync? || a.Damage? || a.Reboot? {
      UniqueHousekeeping(s, a);
    } else if a.ReplayRead? || a.ReplayInsert? || a.ReplayDone? {
      UniqueReplay(s, a);
    } else {
      UniqueSyncer(s, a);
    }
  }

  lemma {:induction false} Reachable(s: State, acts: seq<Action>)
    requires Inv(s) && Unique(s) && Runs(s, acts)
    ensures Inv(Exec(s, acts)) && Unique(Exec(s, acts))
    decreases |acts|
  {
    if acts != [] {
      StepKeeps(s, acts[0]);
      UniqueKeeps(s, acts[0]);
      Reachable(Apply(s, acts[0]), acts[1..]);
    }
  }

  /** In every reachable state, an acknowledgement truncates away every given-up event of
      this boot that the log still holds; and, corrupt entries aside, a given-up event is the
      only kind it takes from the log without ClickHouse having it. So, while no entry has
      been skipped as corrupt, an acknowledgement loses an event exactly when a batch given up
      this boot is still in the log. */
  lemma AckLosesExactlyTheGivenUp(acts: seq<Action>)
    requires Runs(Init(), acts)
    requires Enabled(Exec(Init(), acts), AckDone(true))
    ensures var s := Exec(Init(), acts); var t := Apply(s, AckDone(true));
      && (forall e :: e in s.failed && InLog(s, e) ==> !InLog(t, e) && e !in t.rows)
      && (forall e :: InLog(s, e) && !InLog(t, e) && e !in t.rows ==> e in s.failed || e in s.skipped)
      && (s.skipped == {} ==>
            ((exists e :: InLog(s, e) && !InLog(t, e) && e !in t.rows) <==> exists e :: e in s.failed && InLog(s, e)))
  {
    Reachable(Init(), acts);
    var s := Exec(Init(), acts);
    AckCase(s);
  }

  /** Above what the consumer received, the log holds only events still in flight. */
  lemma AboveHandedIsInFlight(s: State, i: int, e: Event)
    requires Inv(s) && s.life.Up? && !s.consumerDone && s.log.Holds(i, e) && i > s.handed
    ensures e in Path(s)
  {
    var j := i - s.handed - 1;
    assert Flight(s)[j] in Flight(s) && Backed(s, Flight(s)[j]);
    assert Evs(Flight(s))[j] == e;
    assert Path(s)[|s.batch| + j] == e;
  }

  /** A given-up event still in the log lies strictly below the index being acknowledged. */
  lemma GivenUpIsBelowTheAck(s: State, i: int, e: Event)
    requires Inv(s) && Unique(s) && Enabled(s, AckDone(true)) && s.log.Holds(i, e) && e in s.failed
    ensures i < s.lastIdx
  {
    if i > s.handed {
      AboveHandedIsInFlight(s, i, e);
    }
  }

  lemma AckCase(s: State)
    requires Inv(s) && Unique(s) && Enabled(s, AckDone(true))
    ensures var t := Apply(s, AckDone(true));
      && (forall e :: e in s.failed && InLog(s, e) ==> !InLog(t, e) && e !in t.rows)
      && (forall e :: InLog(s, e) && !InLog(t, e) && e !in t.rows ==> e in s.failed || e in s.skipped)
  {
    var t := Apply(s, AckDone(true));
    AckRemovesExactly(s.log, s.lastIdx);
    forall e | e in s.failed && InLog(t, e) ensures false {
      var i :| t.log.Holds(i, e);
      GivenUpIsBelowTheAck(s, i, e);
    }
    forall e | InLog(s, e) && !InLog(t, e) && e !in t.rows ensures e in s.failed || e in s.skipped {
      var i :| s.log.Holds(i, e);
      assert i <= s.lastIdx;
      assert Settled(s, e);
    }
  }

  /** e is nowhere it could still reach ClickHouse from. */
  ghost predicate Gone(s: State, e: Event) {
    e in s.issued && e !in s.rows && !InLog(s, e) && e !in Path(s) && (s.life.Booting? ==> e !in s.life.rows)
  }

  /** Every event in the log was there before or has just been written from the path. */
  lemma LogSources(s: State, a: Action)
    requires Inv(s) && Enabled(s, a)
    ensures forall i, x :: Apply(s, a).log.Holds(i, x) ==> InLog(s, x) || x in Path(s)
  {
    if a.AckDone? || a.Cap? || a.BackgroundSync? || a.Damage? || a.Crash? || a.Reboot? {
      LogOnlyShrinks(s, a);
    } else if a.ReplayDone? {
      AckRemovesExactly(s.log, s.life.snap);
    } else if a.Write? {
      PathWrite(s, a);
      WriteExtends(s, a);
    } else {
      OthersKeepTheLog(s, a);
      assert forall i, x :: Apply(s, a).log.Holds(i, x) ==> s.log.Holds(i, x);
    }
  }

  lemma OthersKeepTheLog(s: State, a: Action)
    requires s.log.Valid() && Enabled(s, a)
    requires !(a.AckDone? || a.Cap? || a.BackgroundSync? || a.Damage? || a.Crash? || a.Reboot? || a.ReplayDone? ||
      a.Write?)
    ensures Apply(s, a).log.entries == s.log.entries && Apply(s, a).log.first == s.log.first
    ensures forall i, x :: Apply(s, a).log.Holds(i, x) <==> s.log.Holds(i, x)
  {
  }

  lemma GoneStays(s: State, a: Action, e: Event)
    requires Inv(s) && Gone(s, e) && Enabled(s, a)
    ensures Gone(Apply(s, a), e)
  {
    var t := Apply(s, a);
    PathSources(s, a);
    LogSources(s, a);
    if a.ReplayRead? && s.log.Has(s.life.pos) {
      assert s.log.Holds(s.life.pos, s.log.Ev(s.life.pos));
    }
    assert forall x <- s.batch :: x in Path(s);
  }

  lemma {:induction false} GoneForever(s: State, acts: seq<Action>, e: Event)
    requires Inv(s) && Gone(s, e) && Runs(s, acts)
    ensures e !in Exec(s, acts).rows
    decreases |acts|
  {
    if acts != [] {
      StepKeeps(s, acts[0]);
      GoneStays(s, acts[0], e);
      GoneForever(Apply(s, acts[0]), acts[1..], e);
    }
  }

  /** A given-up event that the log still held when a later flush of the same boot was
      acknowledged never reaches ClickHouse, however the run goes on. */
  lemma GivenUpThenAckedNeverArrives(acts: seq<Action>, e: Event, rest: seq<Action>)
    requires Runs(Init(), acts)
    requires var s := Exec(Init(), acts);
      && Enabled(s, AckDone(true)) && e in s.failed && InLog(s, e)
      && Runs(Apply(s, AckDone(true)), rest)
    ensures e !in Exec(Apply(Exec(Init(), acts), AckDone(true)), rest).rows
  {
    Reachable(Init(), acts);
    var s := Exec(Init(), acts);
    AckCase(s);
    StepKeeps(s, AckDone(true));
    PathStill(s, AckDone(true));
    GoneForever(Apply(s, AckDone(true)), rest, e);
  }

  ghost predicate Idle(s: State) {
    && s.log.Valid() && s.life.Up? && s.queue == [] == s.pending && s.syncer.Collecting? && s.out == []
    && !s.consumerDone && !s.acking
  }

  /** The state after one request has gone all the way to the consumer. */
  ghost function Carried(s: State, e: Event): State
    requires s.log.Valid()
  {
    var idx := s.log.Last() + 1;
    s.(log := s.log.Written(e).AllSynced(), batch := s.batch + [e], lastIdx := idx, handed := idx,
       issued := s.issued + {e}, confirmed := s.confirmed + {e})
  }

  /** From an idle syncer, one request is taken and handed to flush. */
  lemma CarryToFlush(s0: State, s: State, e: Event)
    requires Reaches(s0, s) && Idle(s) && e !in s.issued
    ensures Reaches(s0, s.(issued := s.issued + {e}, syncer := Writing([e], [])))
  {
    var t1 := s.(issued := s.issued + {e}, queue := [e]);
    OneStep(s0, s, Enqueue(e), t1);
    var t2 := s.(issued := s.issued + {e}, pending := [e]);
    OneStep(s0, t1, Take, t2);
    OneStep(s0, t2, StartFlush, s.(issued := s.issued + {e}, syncer := Writing([e], [])));
  }

  /** It is then written, synced and confirmed. */
  lemma CarryToReply(s0: State, s: State, e: Event)
    requires Reaches(s0, s) && s.log.Valid() && s.life.Up? && s.syncer == Writing([e], [])
    ensures var w := Written(e, s.log.Last() + 1, true);
      Reaches(s0, s.(log := s.log.Written(e).AllSynced(), syncer := Replying([], [w]), confirmed := s.confirmed + {e}))
  {
    var w := Written(e, s.log.Last() + 1, true);
    var t1 := s.(log := s.log.Written(e), syncer := Writing([], [w]));
    assert [e][1..] == [] && [] + [w] == [w] && [w][1..] == [];
    OneStep(s0, s, Write(true), t1);
    var t2 := s.(log := s.log.Written(e).AllSynced(), syncer := Replying([w], [w]));
    OneStep(s0, t1, SyncOk, t2);
    OneStep(s0, t2, Reply(true), t2.(syncer := Replying([], [w]), confirmed := s.confirmed + {e}));
  }

  /** And delivered to the consumer. */
  lemma CarryToConsumer(s0: State, s: State, w: Written)
    requires Reaches(s0, s) && s.log.Valid() && s.life.Up? && s.syncer == Replying([], [w]) && w.ok && s.out == []
    requires !s.consumerDone && !s.acking
    ensures Reaches(s0, s.(syncer := Collecting, batch := s.batch + [w.ev], lastIdx := w.idx, handed := w.idx))
  {
    var v := Envelope(w.idx, w.ev);
    assert Envelopes([w]) == [v] by {
      assert [w][1..] == [];
    }
    var t1 := s.(syncer := Delivering([v]));
    OneStep(s0, s, EndFlush, t1);
    var t2 := s.(syncer := Delivering([]), out := [v]);
    OneStep(s0, t1, Deliver, t2);
    var t3 := s.(syncer := Collecting, out := [v]);
    OneStep(s0, t2, EndFlush, t3);
    OneStep(s0, t3, Recv, s.(syncer := Collecting, batch := s.batch + [w.ev], lastIdx := w.idx, handed := w.idx));
  }

  lemma Carry(s0: State, s: State, e: Event, t: State)
    requires Reaches(s0, s) && Idle(s) && e !in s.issued && t == Carried(s, e)
    ensures Reaches(s0, t)
  {
    CarryToFlush(s0, s, e);
    CarryToReply(s0, s.(issued := s.issued + {e}, syncer := Writing([e], [])), e);
    var w := Written(e, s.log.Last() + 1, true);
    CarryToConsumer(s0, t.(batch := s.batch, lastIdx := s.lastIdx, handed := s.handed, syncer := Replying([], [w])), w);
  }

  /** The first boot of an empty log. */
  lemma FirstBoot() returns (s: State)
    ensures Reaches(Init(), s) && s == Init().(life := Up)
  {
    s := Init();
    assert Runs(s, []) && Exec(s, []) == s;
    var t := s.(life := Booting(1, 0, [], 0));
    OneStep(s, s, Reboot(0), t);
    OneStep(s, t, ReplayDone(true), s.(life := Up));
    s := s.(life := Up);
  }

  /** A run without crash, cap or corruption in which a confirmed event is in the end neither
      in ClickHouse nor in the log: its batch was given up and the next flush acknowledged. */
  lemma WitnessOfLoss(e: Event, e2: Event)
    requires e != e2
    ensures exists t ::
      Reaches(Init(), t) && e in t.confirmed && e !in t.rows && !InLog(t, e) && t.capped == {} == t.skipped
  {
    var s := FirstBoot();
    var log1 := Log(1, [Entry(e, true)], 1);
    var s1 := s.(log := log1, batch := [e], lastIdx := 1, handed := 1, issued := {e}, confirmed := {e});
    Carry(Init(), s, e, s1);
    var s2 := s1.(batch := [], failed := {e}, gaveUp := {e});
    OneStep(Init(), s1, InsertGivenUp, s2);
    var log2 := Log(1, [Entry(e, true), Entry(e2, true)], 2);
    var s3 := s2.(log := log2, batch := [e2], lastIdx := 2, handed := 2, issued := {e} + {e2}, confirmed := {e} + {e2});
    Carry(Init(), s2, e2, s3);
    var s4 := s3.(batch := [], rows := {e2}, acking := true);
    OneStep(Init(), s3, InsertOk, s4);
    var s5 := s4.(log := Log(2, [Entry(e2, true)], 2), acking := false);
    OneStep(Init(), s4, AckDone(true), s5);
    assert !InLog(s5, e);
  }
}
