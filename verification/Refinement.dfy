/** The syncer's flush, as its loops perform it, is a run of the protocol's steps. */
module Refinement {
  import opened Wal
  import opened Pipeline
  import opened GroupCommit

  function SentIn(acts: seq<Act>): seq<Envelope> {
    if acts == [] then []
    else SentIn(acts[..|acts| - 1]) + if acts[|acts| - 1].Sent? then [acts[|acts| - 1].v] else []
  }

  function Succeeded(ws: seq<Written>): set<Event> {
    set w <- ws | w.ok :: w.ev
  }

  /** The protocol state in which flush finds a batch. */
  ghost predicate AtFlush(s: State, batch: seq<Event>) {
    s.log.Valid() && s.life.Up? && s.syncer == Writing(batch, [])
  }

  /** The state after the first n appends of a flush. */
  ghost function AfterWrites(s: State, batch: seq<Event>, ws: seq<Written>, n: nat): State
    requires s.log.Valid() && n <= |batch| == |ws|
  {
    s.(log := FlushedLog(s.log, ws[..n], false), syncer := Writing(batch[n..], ws[..n]))
  }

  lemma NextWrite(s: State, batch: seq<Event>, appends: nat -> bool, n: nat, ws: seq<Written>)
    requires AtFlush(s, batch) && n < |batch| && ws == Results(batch, appends, s.log.Last() + 1)
    ensures var t := AfterWrites(s, batch, ws, n);
      && t.log.Valid() && Enabled(t, Write(appends(n)))
      && AfterWrites(s, batch, ws, n + 1) == Apply(t, Write(appends(n))) && AfterWrites(s, batch, ws, n + 1).log.Valid()
  {
    ResultsForeseen(batch, appends, s.log.Last() + 1);
    OneMoreAppend(s.log, [], ws, n);
    assert ws[..n + 1] == ws[..n] + [ws[n]];
    assert batch[n..][1..] == batch[n + 1..];
    WriteStep(AfterWrites(s, batch, ws, n), AfterWrites(s, batch, ws, n + 1), ws[n]);
  }

  lemma WriteStep(t: State, u: State, w: Written)
    requires t.log.Valid() && t.life.Up? && t.syncer.Writing? && t.syncer.todo != [] && t.syncer.todo[0] == w.ev
    requires w.idx == (if w.ok then t.log.Last() + 1 else 0)
    requires u == t.(log := if w.ok then t.log.Written(w.ev) else t.log,
                     syncer := Writing(t.syncer.todo[1..], t.syncer.done + [w]))
    ensures Enabled(t, Write(w.ok)) && u == Apply(t, Write(w.ok)) && u.log.Valid()
  {
  }

  lemma {:induction false} WritesRun(s: State, batch: seq<Event>, appends: nat -> bool, n: nat, ws: seq<Written>)
    requires AtFlush(s, batch) && n <= |batch| && ws == Results(batch, appends, s.log.Last() + 1)
    ensures Reaches(s, AfterWrites(s, batch, ws, n))
  {
    if n == 0 {
      assert Runs(s, []) && Exec(s, []) == s;
      assert s.log.entries + [] == s.log.entries && batch[0..] == batch;
      assert AfterWrites(s, batch, ws, 0) == s;
    } else {
      WritesRun(s, batch, appends, n - 1, ws);
      NextWrite(s, batch, appends, n - 1, ws);
      OneStep(s, AfterWrites(s, batch, ws, n - 1), Write(appends(n - 1)), AfterWrites(s, batch, ws, n));
    }
  }

  ghost function AfterReplies(s: State, ws: seq<Written>, n: nat): State
    requires n <= |ws|
  {
    s.(syncer := Replying(ws[n..], ws), confirmed := s.confirmed + Succeeded(ws[..n]))
  }

  lemma NextReply(s: State, ws: seq<Written>, n: nat)
    requires s.log.Valid() && s.life.Up? && n < |ws|
    ensures var t := AfterReplies(s, ws, n);
      Enabled(t, Reply(true)) && AfterReplies(s, ws, n + 1) == Apply(t, Reply(true))
  {
    var w := ws[n];
    assert ws[..n + 1] == ws[..n] + [w];
    assert ws[n..][0] == w && ws[n..][1..] == ws[n + 1..];
    assert Succeeded(ws[..n + 1]) == Succeeded(ws[..n]) + if w.ok then {w.ev} else {};
    assert s.confirmed + Succeeded(ws[..n + 1]) ==
      if w.ok then s.confirmed + Succeeded(ws[..n]) + {w.ev} else s.confirmed + Succeeded(ws[..n]);
  }

  lemma {:induction false} RepliesRun(s0: State, s: State, ws: seq<Written>, n: nat)
    requires Reaches(s0, s) && s.log.Valid() && s.life.Up? && s.syncer == Replying(ws, ws) && n <= |ws|
    ensures Reaches(s0, AfterReplies(s, ws, n))
  {
    if n == 0 {
      assert ws[0..] == ws && s.confirmed + Succeeded(ws[..0]) == s.confirmed;
      assert s == AfterReplies(s, ws, 0);
    } else {
      RepliesRun(s0, s, ws, n - 1);
      NextReply(s, ws, n - 1);
      OneStep(s0, AfterReplies(s, ws, n - 1), Reply(true), AfterReplies(s, ws, n));
    }
  }

  /** No delivery is lost unless stop has been signalled. */
  ghost predicate LosesOnlyAfterStop(s: State, lost: nat -> bool) {
    forall i: nat :: lost(i) ==> s.stopped
  }

  ghost function AfterSends(s: State, ws: seq<Written>, lost: nat -> bool, n: nat): State
    requires n <= |ws|
  {
    s.(syncer := Delivering(Envelopes(ws[n..])), out := s.out + SentIn(Sends(ws[..n], lost)))
  }

  lemma NextSend(s: State, ws: seq<Written>, lost: nat -> bool, n: nat)
    requires s.log.Valid() && s.life.Up? && n < |ws| && LosesOnlyAfterStop(s, lost)
    ensures var t := AfterSends(s, ws, lost, n); var u := AfterSends(s, ws, lost, n + 1);
      var a := if lost(n) then Skip else Deliver;
      if ws[n].ok then Enabled(t, a) && u == Apply(t, a) else u == t
  {
    var before := Sends(ws[..n], lost);
    var v := Envelope(ws[n].idx, ws[n].ev);
    assert ws[..n + 1][..n] == ws[..n];
    assert ws[n..][1..] == ws[n + 1..];
    if ws[n].ok {
      assert Envelopes(ws[n..]) == [v] + Envelopes(ws[n + 1..]);
      var act := if lost(n) then Skipped(v) else Sent(v);
      assert (before + [act])[..|before|] == before;
      assert SentIn(before + [act]) == SentIn(before) + if lost(n) then [] else [v];
    } else {
      assert before + [] == before;
    }
  }

  lemma {:induction false} SendsRun(s0: State, s: State, ws: seq<Written>, lost: nat -> bool, n: nat)
    requires Reaches(s0, s) && s.log.Valid() && s.life.Up? && s.syncer == Delivering(Envelopes(ws)) && n <= |ws|
    requires LosesOnlyAfterStop(s, lost)
    ensures Reaches(s0, AfterSends(s, ws, lost, n))
  {
    if n == 0 {
      assert ws[0..] == ws && s.out + [] == s.out;
      assert AfterSends(s, ws, lost, 0) == s;
    } else {
      SendsRun(s0, s, ws, lost, n - 1);
      NextSend(s, ws, lost, n - 1);
      if ws[n - 1].ok {
        var a := if lost(n - 1) then Skip else Deliver;
        OneStep(s0, AfterSends(s, ws, lost, n - 1), a, AfterSends(s, ws, lost, n));
      }
    }
  }

  /** From a successful sync to the end of flush. */
  lemma TailRun(s0: State, s: State, ws: seq<Written>, lost: nat -> bool)
    requires Reaches(s0, s) && s.log.Valid() && s.life.Up? && s.syncer == Replying(ws, ws)
    requires LosesOnlyAfterStop(s, lost)
    ensures Reaches(s0, s.(syncer := Collecting, confirmed := s.confirmed + Succeeded(ws),
                          out := s.out + SentIn(Sends(ws, lost))))
  {
    assert ws[..|ws|] == ws && ws[|ws|..] == [];
    RepliesRun(s0, s, ws, |ws|);
    var t := AfterReplies(s, ws, |ws|);
    var u := t.(syncer := Delivering(Envelopes(ws)));
    OneStep(s0, t, EndFlush, u);
    SendsRun(s0, u, ws, lost, |ws|);
    var v := AfterSends(u, ws, lost, |ws|);
    OneStep(s0, v, EndFlush, v.(syncer := Collecting));
  }

  /** The state a flush leaves: everything done, or the process dead after the writes. */
  ghost function AfterFlush(s: State, batch: seq<Event>, fx: Effects): State
    requires s.log.Valid()
  {
    var ws := Results(batch, fx.appends, s.log.Last() + 1);
    var after := s.(log := FlushedLog(s.log, ws, fx.syncs), syncer := Collecting);
    if fx.syncs then
      after.(stopped := s.stopped || fx.stop.Some?, confirmed := s.confirmed + Succeeded(ws),
        out := s.out + SentIn(Sends(ws, Lost(s.stopped, fx))))
    else Dead(after)
  }

  /** Whatever the appends do, whenever stop is signalled once the consumer has returned, and
      whichever deliveries it costs, the log, the confirmations and the channel that the flush
      loops produce are those of a run of protocol steps; a flush whose sync fails is a run cut
      off by the process's exit. */
  lemma FlushIsARun(s: State, batch: seq<Event>, fx: Effects)
    requires AtFlush(s, batch) && (fx.stop.Some? ==> s.consumerDone)
    ensures Reaches(s, AfterFlush(s, batch, fx))
  {
    var ws := Results(batch, fx.appends, s.log.Last() + 1);
    WritesRun(s, batch, fx.appends, |batch|, ws);
    assert ws[..|batch|] == ws && batch[|batch|..] == [];
    var t := AfterWrites(s, batch, ws, |batch|);
    assert t == s.(log := FlushedLog(s.log, ws, false), syncer := Writing([], ws));
    if fx.syncs {
      var t1 := s.(log := FlushedLog(s.log, ws, true), syncer := Replying(ws, ws));
      OneStep(s, t, SyncOk, t1);
      var t2 := t1.(stopped := s.stopped || fx.stop.Some?);
      if fx.stop.Some? {
        OneStep(s, t1, Stop, t2);
      }
      TailRun(s, t2, ws, Lost(s.stopped, fx));
    } else {
      OneStep(s, t, Crash, Dead(s.(log := FlushedLog(s.log, ws, false))));
    }
  }

  /** And the syncer's own method computes that state's log, stop flag and deliveries. */
  method FlushSyncer(g: GroupSyncer, batch: seq<Event>, fx: Effects, ghost s: State) returns (ghost t: State)
    requires g.wal.Valid() && !g.exited && batch != []
    requires AtFlush(s, batch) && (fx.stop.Some? ==> s.consumerDone)
    requires s.log == g.wal.log && s.stopped == g.stopped
    modifies g`acts, g`exited, g`stopped, g.wal
    ensures Reaches(s, t) && t.log == g.wal.log && g.exited == !fx.syncs == t.life.Down?
    ensures fx.syncs ==> t.stopped == g.stopped
    ensures old(g.acts) <= g.acts
    ensures fx.syncs ==> t.out == s.out + SentIn(g.acts[|old(g.acts)|..])
    ensures fx.syncs ==> t.confirmed == s.confirmed + Confirmed(g.acts[|old(g.acts)|..])
    ensures !fx.syncs ==> t.confirmed == s.confirmed && Confirmed(g.acts[|old(g.acts)|..]) == {}
  {
    FlushIsARun(s, batch, fx);
    t := AfterFlush(s, batch, fx);
    ghost var acts := g.acts;
    g.Flush(batch, fx);
    ghost var ws := Results(batch, fx.appends, s.log.Last() + 1);
    assert g.acts[|acts|..] == FlushActs(ws, fx.syncs, Lost(s.stopped, fx));
    if fx.syncs {
      OnlySendsAreSent(ws, Lost(s.stopped, fx));
    }
    ConfirmedByReplies(ws, fx.syncs, Lost(s.stopped, fx));
  }

  /** The events whose handlers were told of success. */
  function Confirmed(acts: seq<Act>): set<Event> {
    set a <- acts | a.Replied? && a.err == NoError :: a.ev
  }

  lemma ConfirmedConcat(a: seq<Act>, b: seq<Act>)
    ensures Confirmed(a + b) == Confirmed(a) + Confirmed(b)
  {
  }

  lemma ConfirmedByReplies(ws: seq<Written>, syncs: bool, lost: nat -> bool)
    ensures Confirmed(FlushActs(ws, syncs, lost)) == if syncs then Succeeded(ws) else {}
  {
    assert Confirmed(Writes(ws)) == {} == Confirmed(Refusals(ws)) == Confirmed([Synced]) == Confirmed([SyncFailed]);
    SendsAreOfOk(ws, lost);
    assert Confirmed(Sends(ws, lost)) == {};
    forall w <- ws | w.ok ensures w.ev in Confirmed(Replies(ws)) {
      var i :| 0 <= i < |ws| && ws[i] == w;
      assert Replies(ws)[i] in Replies(ws);
    }
    assert Confirmed(Replies(ws)) == Succeeded(ws);
    ConfirmedConcat([Synced], Replies(ws));
    ConfirmedConcat([Synced] + Replies(ws), Sends(ws, lost));
    ConfirmedConcat([SyncFailed], Refusals(ws));
    ConfirmedConcat(Writes(ws), [Synced] + Replies(ws) + Sends(ws, lost));
    ConfirmedConcat(Writes(ws), [SyncFailed] + Refusals(ws));
  }

  lemma {:induction false} SentInNone(acts: seq<Act>)
    requires forall a <- acts :: !a.Sent?
    ensures SentIn(acts) == []
  {
    if acts != [] {
      SentInNone(acts[..|acts| - 1]);
    }
  }

  lemma {:induction false} SentInConcat(a: seq<Act>, b: seq<Act>)
    ensures SentIn(a + b) == SentIn(a) + SentIn(b)
  {
    if b == [] {
      assert a + b == a;
    } else {
      SentInConcat(a, b[..|b| - 1]);
      assert (a + b)[..|a + b| - 1] == a + b[..|b| - 1];
    }
  }

  lemma OnlySendsAreSent(ws: seq<Written>, lost: nat -> bool)
    ensures SentIn(FlushActs(ws, true, lost)) == SentIn(Sends(ws, lost))
  {
    SentInNone(Writes(ws));
    SentInNone([Synced] + Replies(ws));
    SentInConcat([Synced] + Replies(ws), Sends(ws, lost));
    SentInConcat(Writes(ws), [Synced] + Replies(ws) + Sends(ws, lost));
  }
}
