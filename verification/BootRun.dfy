/** The boot-time replay and the consumer's flush, as their loops run them, are runs of
    protocol steps. */
module BootRun {
  import opened Wal
  import opened Pipeline
  import opened Replay
  import opened Consumer

  /** The events of the corrupt entries. */
  function Corrupt(es: seq<Entry>): set<Event> {
    set en <- es | !en.readable :: en.ev
  }

  /** Booting, before the first entry is read. */
  ghost predicate AtBoot(s: State) {
    s.log.Valid() && s.life == Booting(s.log.first, s.log.LastIndex(), [], 0)
  }

  /** The state with the first n entries read, of which `sent` are inserted and `held` are not. */
  ghost function AfterReads(s: State, n: nat, sent: seq<Event>, held: seq<Event>): State
    requires n <= |s.log.entries|
  {
    s.(life := Booting(s.log.first + n, s.log.LastIndex(), held, |sent|),
       rows := s.rows + (set e <- sent),
       skipped := s.skipped + Corrupt(s.log.entries[..n]))
  }

  ghost predicate Split(s: State, n: nat, sent: seq<Event>, held: seq<Event>)
    requires n <= |s.log.entries|
  {
    var read := Readable(s.log.entries[..n]);
    sent == FullPart(read) && sent + held == read && |held| < REPLAY_BATCH
  }

  lemma FullPartGrows(es: seq<Event>, e: Event)
    ensures FullPart(es + [e]) == if |es| % REPLAY_BATCH == REPLAY_BATCH - 1 then es + [e] else FullPart(es)
    ensures |FullPart(es)| + |es| % REPLAY_BATCH == |es|
  {
    var k := |es| % REPLAY_BATCH;
    assert |es + [e]| % REPLAY_BATCH == if k == REPLAY_BATCH - 1 then 0 else k + 1;
  }

  lemma OneMoreEntry(es: seq<Entry>, n: nat)
    requires n < |es|
    ensures es[..n + 1][..n] == es[..n]
    ensures Corrupt(es[..n + 1]) == Corrupt(es[..n]) + if es[n].readable then {} else {es[n].ev}
    ensures Readable(es[..n + 1]) == Readable(es[..n]) + if es[n].readable then [es[n].ev] else []
  {
    assert es[..n + 1] == es[..n] + [es[n]];
  }

  /** The events held after the n-th entry. */
  function Holding(held: seq<Event>, en: Entry): seq<Event> {
    if en.readable then held + [en.ev] else held
  }

  /** The state after the entry at the replay's position is read or skipped. */
  ghost function AfterRead(t: State): State
    requires t.life.Booting? && t.log.Has(t.life.pos)
  {
    var en := t.log.entries[t.life.pos - t.log.first];
    t.(life := t.life.(pos := t.life.pos + 1, rows := Holding(t.life.rows, en)),
       skipped := if en.readable then t.skipped else t.skipped + {en.ev})
  }

  lemma ReadOne(s: State, t: State)
    requires Reaches(s, t) && t.log.Valid() && t.life.Booting? && t.log.Has(t.life.pos) && t.life.pos <= t.life.snap
    requires |t.life.rows| < REPLAY_BATCH
    ensures Reaches(s, AfterRead(t))
  {
    OneStep(s, t, ReplayRead, AfterRead(t));
  }

  lemma ReadAdvances(s: State, n: nat, sent: seq<Event>, held: seq<Event>)
    requires AtBoot(s) && n < |s.log.entries|
    ensures var t := AfterReads(s, n, sent, held);
      t.log.Has(t.life.pos) && AfterRead(t) == AfterReads(s, n + 1, sent, Holding(held, s.log.entries[n]))
  {
    OneMoreEntry(s.log.entries, n);
  }

  /** One turn of the replay loop: an entry is read or skipped, and a full batch inserted. */
  lemma NextRead(s: State, n: nat, sent: seq<Event>, held: seq<Event>) returns (sent2: seq<Event>, held2: seq<Event>)
    requires AtBoot(s) && n < |s.log.entries| && Split(s, n, sent, held) && Reaches(s, AfterReads(s, n, sent, held))
    ensures Split(s, n + 1, sent2, held2) && Reaches(s, AfterReads(s, n + 1, sent2, held2))
  {
    ReadAdvances(s, n, sent, held);
    ReadOne(s, AfterReads(s, n, sent, held));
    sent2, held2 := sent, Holding(held, s.log.entries[n]);
    SplitAdvances(s, n, sent, held);
    if |held2| >= REPLAY_BATCH {
      sent2, held2 := InsertFull(s, n + 1, sent2, held2);
    }
  }

  lemma SplitAdvances(s: State, n: nat, sent: seq<Event>, held: seq<Event>)
    requires n < |s.log.entries| && Split(s, n, sent, held)
    ensures var held2, read := Holding(held, s.log.entries[n]), Readable(s.log.entries[..n + 1]);
      && sent + held2 == read
      && (if |held2| < REPLAY_BATCH then sent == FullPart(read) else |held2| == REPLAY_BATCH && FullPart(read) == read)
  {
    OneMoreEntry(s.log.entries, n);
    FullPartGrows(Readable(s.log.entries[..n]), s.log.entries[n].ev);
  }

  lemma InsertFull(s: State, n: nat, sent: seq<Event>, held: seq<Event>) returns (sent2: seq<Event>, held2: seq<Event>)
    requires AtBoot(s) && n <= |s.log.entries| && Reaches(s, AfterReads(s, n, sent, held))
    requires |held| == REPLAY_BATCH && sent + held == Readable(s.log.entries[..n])
    requires FullPart(sent + held) == sent + held
    ensures Split(s, n, sent2, held2) && Reaches(s, AfterReads(s, n, sent2, held2))
  {
    sent2, held2 := sent + held, [];
    FullBatch(s, AfterReads(s, n, sent, held), sent, held);
    SplitFull(s, n, sent2);
  }

  lemma SplitFull(s: State, n: nat, sent: seq<Event>)
    requires n <= |s.log.entries| && sent == Readable(s.log.entries[..n]) && FullPart(sent) == sent
    ensures Split(s, n, sent, [])
  {
    assert sent + [] == sent;
  }

  lemma FullBatch(s: State, u: State, sent: seq<Event>, held: seq<Event>)
    requires Reaches(s, u) && u.log.Valid() && u.life.Booting? && u.life.rows == held != []
    requires u.life.total == |sent| && u.rows == s.rows + (set e <- sent)
    requires |held| >= REPLAY_BATCH || u.life.pos > u.life.snap
    ensures Reaches(s, u.(life := u.life.(rows := [], total := |sent + held|), rows := s.rows + (set e <- sent + held)))
  {
    var v := u.(life := u.life.(rows := [], total := |sent + held|), rows := s.rows + (set e <- sent + held));
    assert v.rows == u.rows + (set e <- held);
    OneStep(s, u, ReplayInsert, v);
  }

  lemma {:induction false} ReadsRun(s: State, n: nat) returns (sent: seq<Event>, held: seq<Event>)
    requires AtBoot(s) && n <= |s.log.entries|
    ensures Split(s, n, sent, held) && Reaches(s, AfterReads(s, n, sent, held))
  {
    if n == 0 {
      sent, held := [], [];
      assert Runs(s, []) && Exec(s, []) == s;
      assert AfterReads(s, 0, [], []) == s;
    } else {
      sent, held := ReadsRun(s, n - 1);
      sent, held := NextRead(s, n - 1, sent, held);
    }
  }

  /** The state a boot leaves, by the outcome of `ReplayWal`: up, with every readable event in
      ClickHouse and every corrupt one recorded as skipped; or down again, with the full batches
      of the entries dealt with inserted. */
  ghost function AfterReplay(s: State, ok: bool, acks: bool, done: nat): State
    requires s.log.Valid() && done <= |s.log.entries|
  {
    var es := s.log.entries;
    if ok then
      s.(log := if acks then Replayed(s.log) else s.log, life := Up, handed := s.log.Last(),
         rows := s.rows + (set e <- Readable(es)), skipped := s.skipped + Corrupt(es))
    else
      Dead(s.(rows := s.rows + (set e <- FullPart(Readable(es[..done]))), skipped := s.skipped + Corrupt(es[..done])))
  }

  /** However it ends, a replay is a run of protocol steps; a failed one is cut off by the exit of
      the process. */
  lemma ReplayIsARun(s: State, ok: bool, acks: bool, done: nat)
    requires AtBoot(s) && done <= |s.log.entries|
    ensures Reaches(s, AfterReplay(s, ok, acks, done))
  {
    if ok {
      CompleteReplay(s, acks);
    } else {
      var sent, held := ReadsRun(s, done);
      var t := AfterReads(s, done, sent, held);
      OneStep(s, t, Crash, Dead(t));
      assert Dead(t) == AfterReplay(s, false, acks, done);
    }
  }

  lemma CompleteReplay(s: State, acks: bool)
    requires AtBoot(s)
    ensures Reaches(s, AfterReplay(s, true, acks, |s.log.entries|))
  {
    var n := |s.log.entries|;
    var sent, held := ReadsRun(s, n);
    assert s.log.entries[..n] == s.log.entries;
    var all := Readable(s.log.entries);
    LastBatch(s, n, sent, held);
    ReplayEnds(s, AfterReads(s, n, all, []), |all|, acks);
  }

  /** What is still held when every entry has been read goes in a last batch. */
  lemma LastBatch(s: State, n: nat, sent: seq<Event>, held: seq<Event>)
    requires AtBoot(s) && n == |s.log.entries| && Reaches(s, AfterReads(s, n, sent, held))
    ensures Reaches(s, AfterReads(s, n, sent + held, []))
  {
    if held == [] {
      assert sent + held == sent;
    } else {
      FullBatch(s, AfterReads(s, n, sent, held), sent, held);
    }
  }

  lemma ReplayEnds(s: State, u: State, total: nat, acks: bool)
    requires Reaches(s, u) && u.log.Valid() && u.life == Booting(u.log.Last() + 1, u.log.LastIndex(), [], total)
    requires total == |Readable(u.log.entries)|
    ensures Reaches(s, u.(log := if acks then Replayed(u.log) else u.log, life := Up, handed := u.log.Last()))
  {
    AckRemovesExactly(u.log, u.log.LastIndex());
    OneStep(s, u, ReplayDone(acks),
      u.(log := if acks then Replayed(u.log) else u.log, life := Up, handed := u.log.Last()));
  }

  /** The state a flush of the consumer leaves, by the function its loops are proved against. */
  ghost function AfterConsumerFlush(s: State, through: bool, acks: bool): State
    requires s.log.Valid()
  {
    var batch := set e <- s.batch;
    var t := s.(batch := [], log := AfterAck(s.log, s.lastIdx, through, acks));
    if through then t.(rows := s.rows + batch)
    else t.(failed := s.failed + batch, gaveUp := s.gaveUp + batch)
  }

  /** The consumer's flush is a run too: an insert and an acknowledgement that may fail, or a
      given-up batch. */
  lemma ConsumerFlushIsARun(s: State, through: bool, acks: bool)
    requires s.log.Valid() && s.life.Up? && !s.consumerDone && !s.acking && s.batch != []
    ensures Reaches(s, AfterConsumerFlush(s, through, acks))
  {
    assert Runs(s, []) && Exec(s, []) == s;
    var u := AfterConsumerFlush(s, through, acks);
    if through {
      AckRemovesExactly(s.log, s.lastIdx);
      var t := s.(rows := u.rows, batch := [], acking := true);
      OneStep(s, s, InsertOk, t);
      OneStep(s, t, AckDone(acks), u);
    } else {
      OneStep(s, s, InsertGivenUp, u);
    }
  }

  /** And the consumer's own method computes that state. */
  method FlushConsumer(c: Consumer, ghost s: State, weather: Weather) returns (ghost t: State)
    requires c.Valid() && c.batch != [] && s.log.Valid() && s.life.Up? && !s.consumerDone && !s.acking
    requires s.log == c.wal.log && s.batch == c.batch && s.lastIdx == c.lastIdx
    modifies c, c.wal
    ensures c.Valid() && Reaches(s, t) && t == AfterConsumerFlush(s, GetsThrough(weather), weather.acks)
    ensures t.log == c.wal.log && t.batch == c.batch && t.lastIdx == c.lastIdx
  {
    ConsumerFlushIsARun(s, GetsThrough(weather), weather.acks);
    t := AfterConsumerFlush(s, GetsThrough(weather), weather.acks);
    c.Tick(weather);
  }
}
