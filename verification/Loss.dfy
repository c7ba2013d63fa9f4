/** Loss accounting over every run of the pipeline. */
module Loss {
  import opened Wal
  import opened Pipeline

  /** The log holds e where a crash cannot take it. */
  ghost predicate Durable(log: Log, e: Event) {
    exists i :: log.Holds(i, e) && i <= log.synced
  }

  /** Where a confirmed event may be: inserted, durable in the log, or on record as dropped
      by the size cap, skipped as corrupt or part of a batch the consumer gave up. */
  ghost predicate Kept(s: State, e: Event) {
    e in s.rows || e in s.gaveUp || e in s.capped || e in s.skipped || Durable(s.log, e)
  }

  /** An index the syncer assigned still names its event, unless the cap removed it. */
  ghost predicate Backed(s: State, v: Envelope) {
    v.idx <= s.log.Last() && if v.idx < s.log.first then v.ev in s.capped else s.log.Ev(v.idx) == v.ev
  }

  ghost predicate AllBacked(s: State, vs: seq<Envelope>) {
    forall v <- vs :: Backed(s, v)
  }

  /** What the syncer has written but not yet handed to the channel, in log order. */
  function InSyncer(y: Syncer): seq<Envelope> {
    match y
    case Collecting => []
    case Writing(_, done) => Envelopes(done)
    case Replying(_, results) => Envelopes(results)
    case Delivering(left) => left
  }

  function Flight(s: State): seq<Envelope> {
    s.out + InSyncer(s.syncer)
  }

  /** The envelopes in flight carry the consecutive indexes after `handed`, up to the end of
      the log: nothing the consumer has not received lies at or below `handed`. */
  ghost predicate Consecutive(s: State) {
    && s.handed + |Flight(s)| == s.log.Last()
    && forall j :: 0 <= j < |Flight(s)| ==> Flight(s)[j].idx == s.handed + 1 + j
  }

  ghost predicate Settled(s: State, e: Event) {
    e in s.rows || e in s.skipped || e in s.failed || e in s.batch
  }

  ghost predicate SettledThrough(s: State, k: int) {
    forall i, e :: s.log.Holds(i, e) && i <= k ==> Settled(s, e)
  }

  ghost predicate SyncerOk(s: State) {
    && (s.syncer.Replying? ==> forall w <- s.syncer.waiters :: w in s.syncer.results)
    && (s.syncer.Replying? || s.syncer.Delivering? ==> s.log.synced == s.log.Last())
  }

  ghost predicate UpOk(s: State) {
    && SyncerOk(s)
    && AllBacked(s, Flight(s))
    && (forall v <- s.out :: v.idx <= s.log.synced)
    && s.failed <= s.gaveUp
    && (s.consumerDone ==> s.batch == [] && !s.acking)
    && (s.stopped ==> s.consumerDone)
    && (!s.consumerDone ==> Consecutive(s))
    && s.lastIdx <= s.handed <= s.log.Last()
    && (s.acking ==> s.batch == [])
    && SettledThrough(s, s.handed)
  }

  ghost predicate BootOk(s: State)
    requires s.life.Booting?
  {
    && s.life.snap == s.log.LastIndex()
    && s.life.pos <= s.life.snap + 1
    && s.failed == {}
    && s.batch == []
    && Dead(s) == s.(life := Down)
    && (forall i, e :: s.log.Holds(i, e) && i < s.life.pos ==> e in s.rows || e in s.skipped || e in s.life.rows)
  }

  ghost predicate Inv(s: State) {
    && s.log.Valid()
    && (forall e <- s.confirmed :: Kept(s, e))
    && match s.life
       case Down => s == Dead(s)
       case Booting(_, _, _, _) => BootOk(s)
       case Up => UpOk(s)
  }

  lemma {:induction false} EnvelopesAppend(ws: seq<Written>, w: Written)
    ensures Envelopes(ws + [w]) == Envelopes(ws) + if w.ok then [Envelope(w.idx, w.ev)] else []
  {
    if ws == [] {
      assert ws + [w] == [w];
    } else {
      EnvelopesAppend(ws[1..], w);
      assert (ws + [w])[1..] == ws[1..] + [w];
    }
  }

  lemma {:induction false} EnvelopesHas(ws: seq<Written>, w: Written)
    requires w in ws && w.ok
    ensures Envelope(w.idx, w.ev) in Envelopes(ws)
  {
    if ws[0] != w {
      EnvelopesHas(ws[1..], w);
    }
  }

  /** A write adds its envelope at the end of the flight. */
  lemma WriteExtends(s: State, a: Action)
    requires s.log.Valid() && Enabled(s, a) && a.Write?
    ensures var t := Apply(s, a);
      && Flight(t) == Flight(s) + (if a.ok then [Envelope(t.log.Last(), s.syncer.todo[0])] else [])
      && (forall i, e :: s.log.Holds(i, e) <==> t.log.Holds(i, e) && i <= s.log.Last())
      && (forall i, e :: t.log.Holds(i, e) ==> s.log.Holds(i, e) || (e == s.syncer.todo[0] && i == t.log.Last()))
  {
    var t := Apply(s, a);
    EnvelopesAppend(s.syncer.done, t.syncer.done[|s.syncer.done|]);
  }

  lemma WriteBacked(s: State, a: Action)
    requires Inv(s) && Enabled(s, a) && a.Write?
    ensures AllBacked(Apply(s, a), Flight(Apply(s, a)))
  {
    var t := Apply(s, a);
    WriteExtends(s, a);
    forall v <- Flight(s) ensures Backed(t, v) {
      assert Backed(s, v);
    }
  }

  lemma WriteKeeps(s: State, a: Action)
    requires Inv(s) && Enabled(s, a) && a.Write?
    ensures Inv(Apply(s, a))
  {
    var t := Apply(s, a);
    WriteExtends(s, a);
    WriteBacked(s, a);
    assert forall e <- s.confirmed :: Durable(s.log, e) ==> Durable(t.log, e);
    assert SettledThrough(t, t.handed) by {
      assert SettledThrough(s, s.handed);
    }
  }

  lemma QueueKeeps(s: State, a: Action)
    requires Inv(s) && Enabled(s, a) && (a.Enqueue? || a.Take? || a.StartFlush?)
    ensures Inv(Apply(s, a))
  {
    assert Flight(Apply(s, a)) == Flight(s);
  }

  lemma SyncKeeps(s: State, a: Action)
    requires Inv(s) && Enabled(s, a) && a.SyncOk?
    ensures Inv(Apply(s, a))
  {
    var t := Apply(s, a);
    assert Flight(t) == Flight(s);
    assert forall i, e :: s.log.Holds(i, e) <==> t.log.Holds(i, e);
  }

  lemma ReplyKeeps(s: State, a: Action)
    requires Inv(s) && Enabled(s, a) && a.Reply?
    ensures Inv(Apply(s, a))
  {
    assert Flight(Apply(s, a)) == Flight(s);
    var w := s.syncer.waiters[0];
    if w.ok && a.heard {
      EnvelopesHas(s.syncer.results, w);
      assert Envelope(w.idx, w.ev) in Flight(s);
      assert Backed(s, Envelope(w.idx, w.ev));
      assert w.idx >= s.log.first ==> s.log.Holds(w.idx, w.ev);
    }
  }

  lemma EndFlushKeeps(s: State, a: Action)
    requires Inv(s) && Enabled(s, a) && a.EndFlush?
    ensures Inv(Apply(s, a))
  {
    assert Flight(Apply(s, a)) == Flight(s);
  }

  lemma DeliverKeeps(s: State, a: Action)
    requires Inv(s) && Enabled(s, a) && (a.Deliver? || a.Skip?)
    ensures Inv(Apply(s, a))
  {
    var t := Apply(s, a);
    var v := s.syncer.left[0];
    assert s.syncer.left == [v] + t.syncer.left;
    assert v in Flight(s);
    if a.Deliver? {
      assert Flight(t) == Flight(s);
    } else {
      assert forall x <- Flight(t) :: x in Flight(s);
    }
  }

  lemma RecvKeeps(s: State, a: Action)
    requires Inv(s) && Enabled(s, a) && a.Recv?
    ensures Inv(Apply(s, a))
  {
    var t := Apply(s, a);
    var v := s.out[0];
    assert Flight(s) == [v] + Flight(t);
    assert Flight(s)[0] == v && Backed(s, v);
    forall j | 0 <= j < |Flight(t)| ensures Flight(t)[j].idx == t.handed + 1 + j {
      assert Flight(t)[j] == Flight(s)[j + 1];
    }
    assert forall x <- Flight(t) :: x in Flight(s);
  }

  lemma InsertKeeps(s: State, a: Action)
    requires Inv(s) && Enabled(s, a) && (a.InsertOk? || a.InsertGivenUp?)
    ensures Inv(Apply(s, a))
  {
    assert Flight(Apply(s, a)) == Flight(s);
  }

  lemma StopKeeps(s: State, a: Action)
    requires Inv(s) && Enabled(s, a) && (a.ConsumerReturns? || a.Stop?)
    ensures Inv(Apply(s, a))
  {
    assert Flight(Apply(s, a)) == Flight(s);
  }

  lemma AckKeeps(s: State, a: Action)
    requires Inv(s) && Enabled(s, a) && a.AckDone?
    ensures Inv(Apply(s, a))
  {
    var t := Apply(s, a);
    if a.ok && s.lastIdx > 0 {
      AckRemovesExactly(s.log, s.lastIdx);
      assert Flight(t) == Flight(s);
      forall v <- Flight(s) ensures Backed(t, v) {
        assert Backed(s, v);
        assert s.log.Holds(v.idx, v.ev) ==> t.log.Holds(v.idx, v.ev);
      }
      forall e <- s.confirmed ensures Kept(t, e) {
        AckKeepsKept(s, t, e);
      }
    }
  }

  lemma AckKeepsKept(s: State, t: State, e: Event)
    requires Inv(s) && s.life.Up? && s.acking && s.lastIdx > 0
    requires t == s.(acking := false, log := Acked(s.log, s.lastIdx)) && e in s.confirmed
    ensures Kept(t, e)
  {
    AckRemovesExactly(s.log, s.lastIdx);
    if Durable(s.log, e) {
      var i :| s.log.Holds(i, e) && i <= s.log.synced;
      if i > s.lastIdx {
        assert t.log.Holds(i, e);
      } else {
        assert Settled(s, e);
      }
    }
  }

  /** Nothing durable is lost while the log holds what it held and stays as durable. */
  lemma SameLogKeeps(s: State, t: State)
    requires forall i, e :: s.log.Holds(i, e) <==> t.log.Holds(i, e)
    requires t.log.synced >= s.log.synced && t.rows == s.rows && t.gaveUp == s.gaveUp
    requires t.capped == s.capped && t.skipped == s.skipped
    ensures forall e :: Kept(s, e) ==> Kept(t, e)
  {
    forall e | Durable(s.log, e) ensures Durable(t.log, e) {
      var i :| s.log.Holds(i, e) && i <= s.log.synced;
      assert t.log.Holds(i, e);
    }
  }

  lemma BackgroundSyncKeeps(s: State, a: Action)
    requires Inv(s) && Enabled(s, a) && a.BackgroundSync?
    ensures Inv(Apply(s, a))
  {
    var t := Apply(s, a);
    assert forall i, e :: s.log.Holds(i, e) <==> t.log.Holds(i, e);
    assert Flight(t) == Flight(s);
    SameLogKeeps(s, t);
  }

  lemma DamageKeeps(s: State, a: Action)
    requires Inv(s) && Enabled(s, a) && a.Damage?
    ensures Inv(Apply(s, a))
  {
    var t := Apply(s, a);
    assert forall i, e :: s.log.Holds(i, e) <==> t.log.Holds(i, e);
    assert Flight(t) == Flight(s);
    SameLogKeeps(s, t);
  }

  lemma CrashKeeps(s: State, a: Action)
    requires Inv(s) && Enabled(s, a) && a.Crash?
    ensures Inv(Apply(s, a))
  {
    SameLogKeeps(s, Apply(s, a));
  }

  /** Whatever the cap removes is on record. */
  lemma CapRecords(s: State, i: int, e: Event)
    requires s.log.Valid() && s.log.Holds(i, e) && i < Capped(s.log).first
    ensures e in Apply(s.(life := Up), Cap).capped
  {
    CapRemovesAFront(s.log);
    var gone := s.log.entries[..|s.log.entries| - |Capped(s.log).entries|];
    assert gone[i - s.log.first].ev == e;
    assert gone[i - s.log.first] in gone;
  }

  lemma CapKeeps(s: State, a: Action)
    requires Inv(s) && Enabled(s, a) && a.Cap?
    ensures Inv(Apply(s, a))
  {
    var t := Apply(s, a);
    CapRemovesAFront(s.log);
    forall i, e | s.log.Holds(i, e) ensures t.log.Holds(i, e) || e in t.capped {
      if i < t.log.first {
        CapRecords(s, i, e);
      }
    }
    if s.life.Up? {
      assert Flight(t) == Flight(s);
      forall v <- Flight(s) ensures Backed(t, v) {
        assert Backed(s, v);
        assert v.idx >= s.log.first ==> s.log.Holds(v.idx, v.ev);
        if s.log.first <= v.idx < t.log.first {
          CapRecords(s, v.idx, v.ev);
        } 
      }
    }
    forall e <- s.confirmed ensures Kept(t, e) {
      if Durable(s.log, e) {
        var i :| s.log.Holds(i, e) && i <= s.log.synced;
        assert t.log.Holds(i, e) || e in t.capped;
      }
    }
  }

  lemma RebootKeeps(s: State, a: Action)
    requires Inv(s) && Enabled(s, a) && a.Reboot?
    ensures Inv(Apply(s, a))
  {
    var t := Apply(s, a);
    forall e <- s.confirmed ensures Kept(t, e) {
      if Durable(s.log, e) {
        var i :| s.log.Holds(i, e) && i <= s.log.synced;
        assert t.log.Holds(i, e);
      }
    }
  }

  lemma ReplayKeeps(s: State, a: Action)
    requires Inv(s) && Enabled(s, a) && (a.ReplayRead? || a.ReplayInsert?)
    ensures Inv(Apply(s, a))
  {
    var t := Apply(s, a);
    assert forall i, e :: s.log.Holds(i, e) <==> t.log.Holds(i, e);
  }

  lemma ReplayDoneKeeps(s: State, a: Action)
    requires Inv(s) && Enabled(s, a) && a.ReplayDone?
    ensures Inv(Apply(s, a))
  {
    var t := Apply(s, a);
    AckRemovesExactly(s.log, s.life.snap);
    assert forall i, e :: s.log.Holds(i, e) ==> e in s.rows || e in s.skipped;
    forall e <- s.confirmed ensures Kept(t, e) {
      if Durable(s.log, e) {
        var i :| s.log.Holds(i, e) && i <= s.log.synced;
      }
    }
  }

  /** Every step keeps the invariant. */
  lemma StepKeeps(s: State, a: Action)
    requires Inv(s) && Enabled(s, a)
    ensures Inv(Apply(s, a))
  {
    match a
    case Write(_) => WriteKeeps(s, a);
    case Enqueue(_) => QueueKeeps(s, a);
    case Take => QueueKeeps(s, a);
    case StartFlush => QueueKeeps(s, a);
    case SyncOk => SyncKeeps(s, a);
    case Reply(_) => ReplyKeeps(s, a);
    case EndFlush => EndFlushKeeps(s, a);
    case Deliver => DeliverKeeps(s, a);
    case Skip => DeliverKeeps(s, a);
    case Recv => RecvKeeps(s, a);
    case InsertOk => InsertKeeps(s, a);
    case InsertGivenUp => InsertKeeps(s, a);
    case ConsumerReturns => StopKeeps(s, a);
    case Stop => StopKeeps(s, a);
    case AckDone(_) => AckKeeps(s, a);
    case Cap => CapKeeps(s, a);
    case BackgroundSync => BackgroundSyncKeeps(s, a);
    case Damage(_) => DamageKeeps(s, a);
    case Crash => CrashKeeps(s, a);
    case Reboot(_) => RebootKeeps(s, a);
    case ReplayRead => ReplayKeeps(s, a);
    case ReplayInsert => ReplayKeeps(s, a);
    case ReplayDone(_) => ReplayDoneKeeps(s, a);
  }

  lemma {:induction false} RunKeeps(s: State, acts: seq<Action>)
    requires Inv(s) && Runs(s, acts)
    ensures Inv(Exec(s, acts))
    decreases |acts|
  {
    if acts != [] {
      StepKeeps(s, acts[0]);
      RunKeeps(Apply(s, acts[0]), acts[1..]);
    }
  }

  /** Over every run, with any number of crashes and reboots: an event whose handler was told
      it is durable has reached ClickHouse, is still durable in the log, or is on record as
      capped, skipped as corrupt, or given up. */
  lemma LossAccounting(acts: seq<Action>)
    requires Runs(Init(), acts)
    ensures forall e <- Exec(Init(), acts).confirmed :: Kept(Exec(Init(), acts), e)
  {
    RunKeeps(Init(), acts);
  }

  /** The step neither truncates on size, nor damages an entry, nor follows a given-up batch
      with a successful insert in the same boot. */
  predicate Clean(s: State, a: Action)
    requires s.log.Valid()
  {
    && !a.Damage?
    && (a.Cap? ==> Capped(s.log) == s.log)
    && (a.InsertOk? ==> s.failed == {})
  }

  predicate CleanRun(s: State, acts: seq<Action>)
    requires s.log.Valid() && Runs(s, acts)
    decreases |acts|
  {
    acts == [] || (Clean(s, acts[0]) && CleanRun(Apply(s, acts[0]), acts[1..]))
  }

  ghost predicate CleanInv(s: State) {
    && Inv(s)
    && s.capped == {} == s.skipped
    && (forall en <- s.log.entries :: en.readable)
    && (s.acking ==> s.failed == {})
    && (forall e <- s.confirmed :: e in s.rows || Durable(s.log, e))
  }

  /** A newly confirmed event is inserted already or durable. */
  lemma NewlyConfirmed(s: State, a: Action, e: Event)
    requires CleanInv(s) && Enabled(s, a) && Clean(s, a) && e in Apply(s, a).confirmed && e !in s.confirmed
    ensures Durable(Apply(s, a).log, e)
  {
    var w := s.syncer.waiters[0];
    EnvelopesHas(s.syncer.results, w);
    assert Envelope(w.idx, w.ev) in Flight(s);
    assert Backed(s, Envelope(w.idx, w.ev));
    assert Apply(s, a).log.Holds(w.idx, e);
  }

  /** A clean step caps nothing, skips nothing and damages nothing. */
  lemma CleanLog(s: State, a: Action)
    requires CleanInv(s) && Enabled(s, a) && Clean(s, a)
    ensures Apply(s, a).capped == {} == Apply(s, a).skipped
    ensures forall en <- Apply(s, a).log.entries :: en.readable
  {
    assert Events([]) == {};
  }

  lemma CleanStepKeeps(s: State, a: Action)
    requires CleanInv(s) && Enabled(s, a) && Clean(s, a)
    ensures CleanInv(Apply(s, a))
  {
    StepKeeps(s, a);
    CleanLog(s, a);
    var t := Apply(s, a);
    forall e <- t.confirmed ensures e in t.rows || Durable(t.log, e) {
      if e !in s.confirmed {
        NewlyConfirmed(s, a, e);
      } else if Durable(s.log, e) {
        CleanStepKeepsOne(s, a, e);
      }
    }
  }

  lemma CleanStepKeepsOne(s: State, a: Action, e: Event)
    requires CleanInv(s) && Enabled(s, a) && Clean(s, a) && Durable(s.log, e)
    ensures e in Apply(s, a).rows || Durable(Apply(s, a).log, e)
  {
    var t := Apply(s, a);
    var i :| s.log.Holds(i, e) && i <= s.log.synced;
    if t.log.Holds(i, e) {
    } else if a.AckDone? {
      AckRemovesExactly(s.log, s.lastIdx);
      assert Settled(s, e);
    } else if a.ReplayDone? {
      AckRemovesExactly(s.log, s.life.snap);
    }
  }

  lemma {:induction false} CleanRunKeeps(s: State, acts: seq<Action>)
    requires CleanInv(s) && Runs(s, acts) && CleanRun(s, acts)
    ensures CleanInv(Exec(s, acts))
    decreases |acts|
  {
    if acts != [] {
      CleanStepKeeps(s, acts[0]);
      CleanRunKeeps(Apply(s, acts[0]), acts[1..]);
    }
  }

  /** In a run where no flush succeeds after a given-up one of the same boot, the cap never
      truncates and no entry is damaged, no confirmed event is ever lost, whatever crashes;
      and every boot that comes up has put all of them into ClickHouse. */
  lemma NoLoss(acts: seq<Action>)
    requires Runs(Init(), acts) && CleanRun(Init(), acts)
    ensures var t := Exec(Init(), acts);
      && (forall e <- t.confirmed :: e in t.rows || Durable(t.log, e))
      && (forall ackOk :: Enabled(t, ReplayDone(ackOk)) ==> t.confirmed <= t.rows)
  {
    CleanRunKeeps(Init(), acts);
    var t := Exec(Init(), acts);
    ReplayedHasAll(t);
  }

  /** When every entry has been replayed, all that was durable is inserted. */
  lemma ReplayedHasAll(t: State)
    requires CleanInv(t)
    ensures forall ackOk :: Enabled(t, ReplayDone(ackOk)) ==> t.confirmed <= t.rows
  {
    if t.life.Booting? && t.life.pos > t.life.snap && t.life.rows == [] {
      forall e <- t.confirmed ensures e in t.rows {
        if Durable(t.log, e) {
          var i :| t.log.Holds(i, e) && i <= t.log.synced;
        }
      }
    }
  }
}
