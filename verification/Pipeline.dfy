/** The whole ingest pipeline as a protocol: handlers, the group syncer, the consumer, the
    log's own housekeeping, crashes, reboots and the boot-time replay, one step at a time
    and in every interleaving. */
module Pipeline {
  import opened Wal

  datatype Envelope = Envelope(idx: nat, ev: Event)

  /** The outcome of one Append inside a flush: its index, or 0 with ok false. */
  datatype Written = Written(ev: Event, idx: nat, ok: bool)

  /** Where the syncer's goroutine stands in its loop and in flush. */
  datatype Syncer =
    | Collecting
    | Writing(todo: seq<Event>, done: seq<Written>)
    | Replying(waiters: seq<Written>, results: seq<Written>)
    | Delivering(left: seq<Envelope>)

  datatype Life = Down | Booting(pos: nat, snap: nat, rows: seq<Event>, total: nat) | Up

  datatype State = State(
    log: Log,
    life: Life,
    // the syncer
    queue: seq<Event>,
    pending: seq<Event>,
    syncer: Syncer,
    stopped: bool,
    out: seq<Envelope>,
    // the consumer
    batch: seq<Event>,
    lastIdx: nat,
    acking: bool,
    consumerDone: bool,
    // ClickHouse
    rows: set<Event>,
    // history: what each event has been through
    handed: int,          // the last index settled by the replay or received by the consumer
    failed: set<Event>,   // in a batch given up since the last boot
    issued: set<Event>,
    confirmed: set<Event>,  // the handler was told the event is durable
    gaveUp: set<Event>,
    capped: set<Event>,
    skipped: set<Event>)

  datatype Action =
    | Enqueue(ev: Event)
    | Take
    | StartFlush
    | Write(ok: bool)
    | SyncOk
    | Reply(heard: bool)
    | Deliver
    | Skip
    | EndFlush
    | Recv
    | InsertOk
    | InsertGivenUp
    | AckDone(ok: bool)
    | ConsumerReturns
    | Stop
    | Cap
    | BackgroundSync
    | Damage(at: nat)
    | Crash
    | Reboot(kept: int)
    | ReplayRead
    | ReplayInsert
    | ReplayDone(ackOk: bool)

  const REPLAY_BATCH := 1000

  function Events(es: seq<Entry>): set<Event> {
    set e <- es :: e.ev
  }

  function Init(): State {
    State(Log(1, [], 0), Down, [], [], Collecting, false, [], [], 0, false, false, {}, 0, {}, {}, {}, {}, {}, {})
  }

  function Envelopes(ws: seq<Written>): seq<Envelope> {
    if ws == [] then []
    else if ws[0].ok then [Envelope(ws[0].idx, ws[0].ev)] + Envelopes(ws[1..])
    else Envelopes(ws[1..])
  }

  /** Everything in memory is lost; the log and ClickHouse stay. */
  function Dead(s: State): State {
    s.(life := Down, queue := [], pending := [], syncer := Collecting, stopped := false, out := [],
       batch := [], lastIdx := 0, acking := false, consumerDone := false, failed := {})
  }

  predicate Enabled(s: State, a: Action) {
    match a
    case Enqueue(ev) => s.life.Up? && ev !in s.issued
    case Take => s.life.Up? && s.syncer.Collecting? && s.queue != []
    case StartFlush => s.life.Up? && s.syncer.Collecting? && s.pending != []
    case Write(_) => s.life.Up? && s.syncer.Writing? && s.syncer.todo != []
    case SyncOk => s.life.Up? && s.syncer.Writing? && s.syncer.todo == []
    case Reply(_) => s.life.Up? && s.syncer.Replying? && s.syncer.waiters != []
    case Deliver => s.life.Up? && s.syncer.Delivering? && s.syncer.left != []
    case Skip => s.life.Up? && s.syncer.Delivering? && s.syncer.left != [] && s.stopped
    case EndFlush => s.life.Up? && (s.syncer == Delivering([]) || (s.syncer.Replying? && s.syncer.waiters == []))
    case Recv => s.life.Up? && !s.consumerDone && !s.acking && s.out != []
    case InsertOk => s.life.Up? && !s.consumerDone && !s.acking && s.batch != []
    case InsertGivenUp => s.life.Up? && !s.consumerDone && !s.acking && s.batch != []
    case AckDone(_) => s.life.Up? && s.acking
    case ConsumerReturns => s.life.Up? && !s.acking && s.batch == []
    case Stop => s.life.Up? && s.consumerDone
    case Cap => !s.life.Down?
    case BackgroundSync => !s.life.Down?
    case Damage(at) => s.log.Has(at)
    case Crash => true
    case Reboot(k) => s.life.Down? && s.log.first - 1 <= k <= s.log.Last() && s.log.synced <= k
    case ReplayRead => s.life.Booting? && s.life.pos <= s.life.snap && |s.life.rows| < REPLAY_BATCH
    case ReplayInsert =>
      s.life.Booting? && s.life.rows != [] && (s.life.pos > s.life.snap || |s.life.rows| >= REPLAY_BATCH)
    case ReplayDone(_) => s.life.Booting? && s.life.pos > s.life.snap && s.life.rows == []
  }

  function Apply(s: State, a: Action): State
    requires s.log.Valid() && Enabled(s, a)
  {
    match a
    case Enqueue(ev) => s.(queue := s.queue + [ev], issued := s.issued + {ev})
    case Take => s.(queue := s.queue[1..], pending := s.pending + [s.queue[0]])
    case StartFlush => s.(pending := [], syncer := Writing(s.pending, []))
    case Write(ok) =>
      var ev := s.syncer.todo[0];
      var idx := if ok then s.log.Last() + 1 else 0;
      s.(log := if ok then s.log.Written(ev) else s.log,
         syncer := Writing(s.syncer.todo[1..], s.syncer.done + [Written(ev, idx, ok)]))
    case SyncOk => s.(log := s.log.AllSynced(), syncer := Replying(s.syncer.done, s.syncer.done))
    case Reply(heard) =>
      var w := s.syncer.waiters[0];
      s.(syncer := Replying(s.syncer.waiters[1..], s.syncer.results),
         confirmed := if w.ok && heard then s.confirmed + {w.ev} else s.confirmed)
    case Deliver => s.(out := s.out + [s.syncer.left[0]], syncer := Delivering(s.syncer.left[1..]))
    case Skip => s.(syncer := Delivering(s.syncer.left[1..]))
    case EndFlush => s.(syncer := if s.syncer.Replying? then Delivering(Envelopes(s.syncer.results)) else Collecting)
    case Recv =>
      s.(out := s.out[1..], batch := s.batch + [s.out[0].ev], lastIdx := s.out[0].idx, handed := s.out[0].idx)
    case InsertOk => s.(rows := s.rows + (set e <- s.batch), batch := [], acking := true)
    case InsertGivenUp =>
      s.(failed := s.failed + (set e <- s.batch), gaveUp := s.gaveUp + (set e <- s.batch), batch := [])
    case AckDone(ok) =>
      s.(acking := false, log := if ok && s.lastIdx > 0 then Acked(s.log, s.lastIdx) else s.log)
    case ConsumerReturns => s.(consumerDone := true)
    case Stop => s.(stopped := true)
    case Cap =>
      s.(log := Capped(s.log),
         capped := s.capped + Events(s.log.entries[..|s.log.entries| - |Capped(s.log).entries|]))
    case BackgroundSync => s.(log := s.log.AllSynced())
    case Damage(at) => s.(log := s.log.Damaged(at))
    case Crash => Dead(s)
    case Reboot(k) =>
      var log := s.log.Cut(k);
      s.(log := log, life := Booting(log.first, log.LastIndex(), [], 0))
    case ReplayRead =>
      var pos := s.life.pos;
      if s.log.Has(pos) && s.log.entries[pos - s.log.first].readable
      then s.(life := s.life.(pos := pos + 1, rows := s.life.rows + [s.log.Ev(pos)]))
      else s.(life := s.life.(pos := pos + 1),
              skipped := if s.log.Has(pos) then s.skipped + {s.log.Ev(pos)} else s.skipped)
    case ReplayInsert =>
      s.(rows := s.rows + (set e <- s.life.rows), life := s.life.(rows := [], total := s.life.total + |s.life.rows|))
    case ReplayDone(ackOk) =>
      s.(log := if ackOk && s.life.total > 0 && s.life.snap > 0 then Acked(s.log, s.life.snap) else s.log,
         life := Up, handed := s.log.Last())
  }

  /** The actions can be taken one after the other from s. */
  predicate Runs(s: State, acts: seq<Action>)
    requires s.log.Valid()
    decreases |acts|
  {
    acts == [] || (Enabled(s, acts[0]) && Apply(s, acts[0]).log.Valid() && Runs(Apply(s, acts[0]), acts[1..]))
  }

  function Exec(s: State, acts: seq<Action>): (t: State)
    requires s.log.Valid() && Runs(s, acts)
    ensures t.log.Valid()
    decreases |acts|
  {
    if acts == [] then s else Exec(Apply(s, acts[0]), acts[1..])
  }

  lemma {:induction false} OneMore(s: State, acts: seq<Action>, a: Action)
    requires s.log.Valid() && Runs(s, acts) && Enabled(Exec(s, acts), a) && Apply(Exec(s, acts), a).log.Valid()
    ensures Runs(s, acts + [a]) && Exec(s, acts + [a]) == Apply(Exec(s, acts), a)
    decreases |acts|
  {
    if acts == [] {
      assert acts + [a] == [a];
      assert [a][1..] == [];
    } else {
      OneMore(Apply(s, acts[0]), acts[1..], a);
      assert (acts + [a])[1..] == acts[1..] + [a];
    }
  }

  ghost predicate Reaches(s: State, t: State) {
    s.log.Valid() && exists acts :: Runs(s, acts) && Exec(s, acts) == t
  }

  lemma OneStep(s: State, t: State, a: Action, u: State)
    requires Reaches(s, t) && t.log.Valid() && Enabled(t, a) && u == Apply(t, a) && u.log.Valid()
    ensures Reaches(s, u)
  {
    var acts :| Runs(s, acts) && Exec(s, acts) == t;
    OneMore(s, acts, a);
  }
}
