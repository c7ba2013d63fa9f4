/** The group syncer: many waiting requests, one fsync, then the replies, then the deliveries. */
module GroupCommit {
  import opened Basics
  import opened Wal
  import opened Pipeline

  datatype Failure = NoError | AppendError | SyncError

  /** What the syncer does that others can observe, in the order it does it. */
  datatype Act =
    | Wrote(v: Envelope)
    | NotWritten(ev: Event)
    | Synced
    | SyncFailed
    | Replied(ev: Event, idx: nat, err: Failure)
    | Sent(v: Envelope)
    | Skipped(v: Envelope)

  /** What the environment decides during one flush: which appends and whether the fsync
      succeed, before which delivery stop is signalled if it is signalled during this flush, and
      which deliveries lose the race against stop. */
  datatype Effects = Effects(appends: nat -> bool, syncs: bool, stop: Option<nat>, skips: nat -> bool)

  function Count(f: nat -> bool, n: nat): (k: nat)
    ensures k <= n
  {
    if n == 0 then 0 else Count(f, n - 1) + if f(n - 1) then 1 else 0
  }

  /** The outcome of every append of a batch whose first successful one gets index `next`. */
  function Results(batch: seq<Event>, appends: nat -> bool, next: nat): (ws: seq<Written>)
    ensures |ws| == |batch|
  {
    seq(|batch|, i requires 0 <= i < |batch| =>
      Written(batch[i], if appends(i) then next + Count(appends, i) else 0, appends(i)))
  }

  function Stored(ws: seq<Written>): seq<Entry> {
    if ws == [] then []
    else Stored(ws[..|ws| - 1]) + if ws[|ws| - 1].ok then [Entry(ws[|ws| - 1].ev, true)] else []
  }

  function Writes(ws: seq<Written>): seq<Act> {
    seq(|ws|, i requires 0 <= i < |ws| =>
      if ws[i].ok then Wrote(Envelope(ws[i].idx, ws[i].ev)) else NotWritten(ws[i].ev))
  }

  function Replies(ws: seq<Written>): seq<Act> {
    seq(|ws|, i requires 0 <= i < |ws| => Replied(ws[i].ev, ws[i].idx, if ws[i].ok then NoError else AppendError))
  }

  function Refusals(ws: seq<Written>): seq<Act> {
    seq(|ws|, i requires 0 <= i < |ws| => Replied(ws[i].ev, 0, SyncError))
  }

  /** A delivery loses its race only once stop has been signalled. */
  function Lost(stopped: bool, fx: Effects): nat -> bool {
    (i: nat) => (stopped || (fx.stop.Some? && fx.stop.value <= i)) && fx.skips(i)
  }

  function Sends(ws: seq<Written>, skips: nat -> bool): seq<Act> {
    if ws == [] then []
    else
      var w := ws[|ws| - 1];
      var v := Envelope(w.idx, w.ev);
      Sends(ws[..|ws| - 1], skips) + if !w.ok then [] else if skips(|ws| - 1) then [Skipped(v)] else [Sent(v)]
  }

  function FlushActs(ws: seq<Written>, syncs: bool, skips: nat -> bool): seq<Act> {
    Writes(ws) + if syncs then [Synced] + Replies(ws) + Sends(ws, skips) else [SyncFailed] + Refusals(ws)
  }

  /** The envelope an act exposes to a handler or to the consumer. */
  ghost predicate Exposes(a: Act, v: Envelope) {
    match a
    case Replied(ev, idx, err) => err == NoError && v == Envelope(idx, ev)
    case Sent(w) => v == w
    case Skipped(w) => v == w
    case _ => false
  }

  /** The event was written under that index and an fsync covering it succeeded before p. */
  ghost predicate Covered(acts: seq<Act>, p: nat, v: Envelope)
    requires p <= |acts|
  {
    exists q, r :: 0 <= q < r < p && acts[q] == Wrote(v) && acts[r] == Synced
  }

  /** Nobody hears of an index, and nothing is delivered, before the fsync that covers it. */
  ghost predicate Disciplined(acts: seq<Act>) {
    forall p, v :: 0 <= p < |acts| && Exposes(acts[p], v) ==> Covered(acts, p, v)
  }

  function Answered(acts: seq<Act>): seq<Event> {
    if acts == [] then []
    else Answered(acts[..|acts| - 1]) + if acts[|acts| - 1].Replied? then [acts[|acts| - 1].ev] else []
  }

  lemma {:induction false} AnsweredConcat(a: seq<Act>, b: seq<Act>)
    ensures Answered(a + b) == Answered(a) + Answered(b)
  {
    if b == [] {
      assert a + b == a;
    } else {
      AnsweredConcat(a, b[..|b| - 1]);
      assert (a + b)[..|a + b| - 1] == a + b[..|b| - 1];
    }
  }

  lemma {:induction false} AnsweredOnlyReplies(acts: seq<Act>, evs: seq<Event>)
    requires |evs| == |acts| && forall i :: 0 <= i < |acts| ==> acts[i].Replied? && acts[i].ev == evs[i]
    ensures Answered(acts) == evs
  {
    if acts != [] {
      AnsweredOnlyReplies(acts[..|acts| - 1], evs[..|acts| - 1]);
    }
  }

  lemma {:induction false} AnsweredNone(acts: seq<Act>)
    requires forall a <- acts :: !a.Replied?
    ensures Answered(acts) == []
  {
    if acts != [] {
      AnsweredNone(acts[..|acts| - 1]);
    }
  }

  lemma {:induction false} SendsAreOfOk(ws: seq<Written>, skips: nat -> bool)
    ensures forall a <- Sends(ws, skips) ::
      (a.Sent? || a.Skipped?) && exists i :: 0 <= i < |ws| && ws[i].ok && a.v == Envelope(ws[i].idx, ws[i].ev)
  {
    if ws != [] {
      var n := |ws| - 1;
      SendsAreOfOk(ws[..n], skips);
      forall a <- Sends(ws, skips)
        ensures (a.Sent? || a.Skipped?) && exists i :: 0 <= i < |ws| && ws[i].ok && a.v == Envelope(ws[i].idx, ws[i].ev)
      {
        if a in Sends(ws[..n], skips) {
          var i :| 0 <= i < n && ws[..n][i].ok && a.v == Envelope(ws[..n][i].idx, ws[..n][i].ev);
          assert ws[i].ok && a.v == Envelope(ws[i].idx, ws[i].ev);
        } else {
          assert ws[n].ok && a.v == Envelope(ws[n].idx, ws[n].ev);
        }
      }
    }
  }

  lemma OneMoreResult(ws: seq<Written>, i: nat)
    requires i < |ws|
    ensures Stored(ws[..i + 1]) == Stored(ws[..i]) + if ws[i].ok then [Entry(ws[i].ev, true)] else []
    ensures Writes(ws[..i + 1]) ==
      Writes(ws[..i]) + [if ws[i].ok then Wrote(Envelope(ws[i].idx, ws[i].ev)) else NotWritten(ws[i].ev)]
  {
    assert ws[..i + 1][..i] == ws[..i];
  }

  /** Every request of a flushed batch gets exactly one reply, in order. */
  lemma FlushAnswersEach(ws: seq<Written>, syncs: bool, skips: nat -> bool)
    ensures Answered(FlushActs(ws, syncs, skips)) == seq(|ws|, i requires 0 <= i < |ws| => ws[i].ev)
  {
    var evs := seq(|ws|, i requires 0 <= i < |ws| => ws[i].ev);
    AnsweredNone(Writes(ws));
    AnsweredOnlyReplies(Replies(ws), evs);
    AnsweredOnlyReplies(Refusals(ws), evs);
    SendsAreOfOk(ws, skips);
    AnsweredNone(Sends(ws, skips));
    AnsweredInTheMiddle(Writes(ws), SyncFailed, Refusals(ws), []);
    AnsweredInTheMiddle(Writes(ws), Synced, Replies(ws), Sends(ws, skips));
    assert [SyncFailed] + Refusals(ws) + [] == [SyncFailed] + Refusals(ws);
  }

  lemma AnsweredInTheMiddle(a: seq<Act>, x: Act, b: seq<Act>, c: seq<Act>)
    requires !x.Replied? && Answered(a) == [] == Answered(c)
    ensures Answered(a + ([x] + b + c)) == Answered(b)
  {
    AnsweredNone([x]);
    AnsweredConcat([x], b);
    AnsweredConcat([x] + b, c);
    AnsweredConcat(a, [x] + b + c);
  }

  /** What each handler is told: the i-th reply of a flush is the i-th request's. It reports the
      sync error if the sync failed; otherwise success, with the index assigned, exactly when its
      own append succeeded, whatever became of the others. */
  lemma EachReplyIsItsOwn(batch: seq<Event>, fx: Effects, next: nat, skips: nat -> bool, i: nat)
    requires i < |batch|
    ensures var acts := FlushActs(Results(batch, fx.appends, next), fx.syncs, skips);
      && |batch| + 1 + i < |acts|
      && acts[|batch| + 1 + i] ==
           if !fx.syncs then Replied(batch[i], 0, SyncError)
           else if fx.appends(i) then Replied(batch[i], next + Count(fx.appends, i), NoError)
           else Replied(batch[i], 0, AppendError)
  {
    var ws := Results(batch, fx.appends, next);
    if fx.syncs {
      assert ([Synced] + Replies(ws) + Sends(ws, skips))[1 + i] == Replies(ws)[i];
    } else {
      assert ([SyncFailed] + Refusals(ws))[1 + i] == Refusals(ws)[i];
    }
  }

  /** And what is delivered: after the replies come the events whose appends succeeded, in order,
      each sent or, where the race against stop was lost, skipped. */
  lemma {:induction false} EachSuccessIsDelivered(ws: seq<Written>, skips: nat -> bool, i: nat)
    requires i < |ws| && ws[i].ok
    ensures var k, v := Successes(ws, i), Envelope(ws[i].idx, ws[i].ev);
      && k < |Sends(ws, skips)| == Successes(ws, |ws|)
      && Sends(ws, skips)[k] == if skips(i) then Skipped(v) else Sent(v)
  {
    SendsCounted(ws, skips);
    if i < |ws| - 1 {
      var n := |ws| - 1;
      EachSuccessIsDelivered(ws[..n], skips, i);
      SuccessesOfPrefix(ws, n, i);
      SuccessesOfPrefix(ws, n, n);
    } else {
      SendsCounted(ws[..i], skips);
      SuccessesOfPrefix(ws, i, i);
    }
  }

  function Successes(ws: seq<Written>, n: nat): nat
    requires n <= |ws|
  {
    if n == 0 then 0 else Successes(ws, n - 1) + if ws[n - 1].ok then 1 else 0
  }

  lemma {:induction false} SuccessesOfPrefix(ws: seq<Written>, n: nat, i: nat)
    requires i <= n <= |ws|
    ensures Successes(ws[..n], i) == Successes(ws, i)
  {
    if i > 0 {
      SuccessesOfPrefix(ws, n, i - 1);
    }
  }

  lemma {:induction false} SendsCounted(ws: seq<Written>, skips: nat -> bool)
    ensures |Sends(ws, skips)| == Successes(ws, |ws|)
  {
    if ws != [] {
      var n := |ws| - 1;
      SendsCounted(ws[..n], skips);
      SuccessesOfPrefix(ws, n, n);
    }
  }

  /** Appending one flush to a disciplined history keeps it disciplined. */
  lemma FlushDisciplined(before: seq<Act>, ws: seq<Written>, syncs: bool, skips: nat -> bool)
    requires Disciplined(before)
    ensures Disciplined(before + FlushActs(ws, syncs, skips))
  {
    var acts := before + FlushActs(ws, syncs, skips);
    var m := |before| + |ws|;
    SendsAreOfOk(ws, skips);
    forall p, v | 0 <= p < |acts| && Exposes(acts[p], v) ensures Covered(acts, p, v) {
      if p < |before| {
        assert Covered(before, p, v);
        var q, r :| 0 <= q < r < p && before[q] == Wrote(v) && before[r] == Synced;
        assert acts[q] == Wrote(v) && acts[r] == Synced;
      } else {
        assert p > m && syncs && acts[m] == Synced;
        var i: nat;
        if p <= m + |ws| {
          i := p - m - 1;
        } else {
          assert acts[p] == Sends(ws, skips)[p - m - 1 - |ws|];
          assert acts[p] in Sends(ws, skips);
          i :| 0 <= i < |ws| && ws[i].ok && v == Envelope(ws[i].idx, ws[i].ev);
        }
        assert acts[|before| + i] == Wrote(v);
      }
    }
  }

  lemma {:induction false} StoredAt(ws: seq<Written>, batch: seq<Event>, appends: nat -> bool, next: nat)
    requires ws == Results(batch, appends, next)
    ensures |Stored(ws)| == Count(appends, |batch|)
    ensures forall i :: 0 <= i < |ws| && ws[i].ok ==> next <= ws[i].idx < next + |Stored(ws)|
    ensures forall i :: 0 <= i < |ws| && ws[i].ok ==> Stored(ws)[ws[i].idx - next] == Entry(batch[i], true)
  {
    if ws != [] {
      var n := |ws| - 1;
      assert ws[..n] == Results(batch[..n], appends, next);
      StoredAt(ws[..n], batch[..n], appends, next);
      forall i | 0 <= i < |ws| && ws[i].ok
        ensures next <= ws[i].idx < next + |Stored(ws)| && Stored(ws)[ws[i].idx - next] == Entry(batch[i], true)
      {
        if i < n {
          assert ws[..n][i] == ws[i];
        }
      }
    }
  }

  /** Each result names the index after everything stored before it. */
  ghost predicate Foreseen(ws: seq<Written>, batch: seq<Event>, appends: nat -> bool, next: nat) {
    && |ws| == |batch|
    && forall i :: 0 <= i < |ws| ==>
      ws[i] == Written(batch[i], if appends(i) then next + |Stored(ws[..i])| else 0, appends(i))
  }

  lemma ResultsForeseen(batch: seq<Event>, appends: nat -> bool, next: nat)
    ensures Foreseen(Results(batch, appends, next), batch, appends, next)
  {
    var ws := Results(batch, appends, next);
    forall i | 0 <= i < |ws|
      ensures ws[i] == Written(batch[i], if appends(i) then next + |Stored(ws[..i])| else 0, appends(i))
    {
      assert ws[..i] == Results(batch[..i], appends, next);
      StoredAt(ws[..i], batch[..i], appends, next);
    }
  }

  /** The log and the history after the first n appends. */
  ghost function LogAfter(log: Log, ws: seq<Written>, n: nat): Log
    requires n <= |ws|
  {
    log.(entries := log.entries + Stored(ws[..n]))
  }

  ghost function ActsAfter(acts: seq<Act>, ws: seq<Written>, n: nat): seq<Act>
    requires n <= |ws|
  {
    acts + Writes(ws[..n])
  }

  lemma NothingYet(log: Log, acts: seq<Act>, ws: seq<Written>)
    ensures LogAfter(log, ws, 0) == log && ActsAfter(acts, ws, 0) == acts
  {
    assert log.entries + [] == log.entries && acts + [] == acts;
  }

  lemma OneMoreAppend(log: Log, acts: seq<Act>, ws: seq<Written>, i: nat)
    requires i < |ws|
    ensures LogAfter(log, ws, i + 1) ==
      if ws[i].ok then LogAfter(log, ws, i).Written(ws[i].ev) else LogAfter(log, ws, i)
    ensures LogAfter(log, ws, i).Last() == log.Last() + |Stored(ws[..i])|
    ensures ActsAfter(acts, ws, i + 1) ==
      ActsAfter(acts, ws, i) + [if ws[i].ok then Wrote(Envelope(ws[i].idx, ws[i].ev)) else NotWritten(ws[i].ev)]
  {
    OneMoreResult(ws, i);
  }

  function FlushedLog(log: Log, ws: seq<Written>, syncs: bool): Log
    requires log.Valid()
  {
    var entries := log.entries + Stored(ws);
    log.(entries := entries, synced := if syncs then log.first - 1 + |entries| else log.synced)
  }

  /** Every index a flush hands out names the entry that holds the event, and is durable once
      the flush has synced. */
  lemma IndexesNameTheirEntries(log: Log, batch: seq<Event>, fx: Effects, i: nat)
    requires log.Valid() && i < |batch| && fx.appends(i)
    ensures var ws := Results(batch, fx.appends, log.Last() + 1);
      var after := FlushedLog(log, ws, fx.syncs);
      after.Holds(ws[i].idx, batch[i]) && ws[i].idx > log.Last() && (fx.syncs ==> ws[i].idx <= after.synced)
  {
    var ws := Results(batch, fx.appends, log.Last() + 1);
    StoredAt(ws, batch, fx.appends, log.Last() + 1);
  }

  class GroupSyncer {
    const wal: WalWriter
    const batchMax: nat
    var pending: seq<Event>
    var timerActive: bool
    var stopped: bool
    var returned: bool  // the loop has returned
    var exited: bool    // the process has exited
    var acts: seq<Act>
    ghost var taken: seq<Event>

    /** Nothing taken is forgotten: it was answered once, in order, or it is pending, with
        the flush timer armed; and the history is disciplined. */
    ghost predicate Valid()
      reads this, wal
    {
      && wal.Valid()
      && 0 < batchMax
      && |pending| < batchMax
      && Answered(acts) + pending == taken
      && (timerActive <==> pending != [])
      && Disciplined(acts)
    }

    constructor (wal: WalWriter, batchMax: nat)
      requires wal.Valid()
      ensures this.wal == wal && this.batchMax == if batchMax == 0 then 256 else batchMax
      ensures Valid() && pending == [] && acts == [] && taken == [] && !exited && !stopped && !returned
    {
      this.wal := wal;
      this.batchMax := if batchMax == 0 then 256 else batchMax;
      pending := [];
      timerActive := false;
      stopped, returned := false, false;
      exited := false;
      acts := [];
      taken := [];
    }

    /** The results of the appends, as flush keeps them beside the batch. */
    ghost predicate Noted(appendOk: array<bool>, indices: array<nat>, ws: seq<Written>, n: nat)
      reads appendOk, indices
    {
      && n <= |ws| == appendOk.Length == indices.Length
      && forall j :: 0 <= j < n ==> appendOk[j] == ws[j].ok && (appendOk[j] ==> indices[j] == ws[j].idx)
    }

    /** One turn of the append loop. */
    method AppendOne(ev: Event, appends: bool) returns (ok: bool, idx: nat)
      requires wal.Valid()
      modifies this`acts, wal
      ensures wal.Valid() && ok == appends
      ensures wal.log == if ok then old(wal.log).Written(ev) else old(wal.log)
      ensures idx == if ok then old(wal.log).Last() + 1 else 0
      ensures acts == old(acts) + [if ok then Wrote(Envelope(idx, ev)) else NotWritten(ev)]
    {
      idx := 0;
      ok := wal.Append(ev, true, appends);
      if !ok {
        acts := acts + [NotWritten(ev)];
      } else {
        idx := wal.CurrentIndex();
        acts := acts + [Wrote(Envelope(idx, ev))];
      }
    }

    /** The append loop over results that are known in advance. */
    method AppendEach(batch: seq<Event>, appends: nat -> bool, appendOk: array<bool>, indices: array<nat>,
      ghost ws: seq<Written>)
      requires wal.Valid() && Foreseen(ws, batch, appends, wal.log.Last() + 1)
      requires appendOk.Length == indices.Length == |batch|
      modifies this`acts, wal, appendOk, indices
      ensures wal.Valid()
      ensures wal.log == old(wal.log).(entries := old(wal.log).entries + Stored(ws))
      ensures acts == old(acts) + Writes(ws)
      ensures forall j :: 0 <= j < |batch| ==> appendOk[j] == ws[j].ok && indices[j] == ws[j].idx
    {
      ghost var log0, acts0 := wal.log, acts;
      NothingYet(log0, acts0, ws);
      for i := 0 to |batch|
        invariant wal.Valid() && wal.log == LogAfter(log0, ws, i) && acts == ActsAfter(acts0, ws, i)
        invariant forall j :: 0 <= j < i ==> appendOk[j] == ws[j].ok && indices[j] == ws[j].idx
      {
        OneMoreAppend(log0, acts0, ws, i);
        appendOk[i], indices[i] := AppendOne(batch[i], appends(i));
      }
      assert ws[..|batch|] == ws;
    }

    method AppendBatch(batch: seq<Event>, appends: nat -> bool, ghost ws: seq<Written>)
      returns (appendOk: array<bool>, indices: array<nat>)
      requires wal.Valid() && ws == Results(batch, appends, wal.log.Last() + 1)
      modifies this`acts, wal
      ensures wal.Valid()
      ensures wal.log == old(wal.log).(entries := old(wal.log).entries + Stored(ws))
      ensures acts == old(acts) + Writes(ws)
      ensures fresh(appendOk) && fresh(indices) && Noted(appendOk, indices, ws, |batch|)
      ensures forall j :: 0 <= j < |batch| && !ws[j].ok ==> indices[j] == 0
    {
      appendOk := new bool[|batch|];
      indices := new nat[|batch|];
      ResultsForeseen(batch, appends, wal.log.Last() + 1);
      AppendEach(batch, appends, appendOk, indices, ws);
    }

    method RefuseAll(batch: seq<Event>, ghost ws: seq<Written>)
      requires |ws| == |batch| && forall j :: 0 <= j < |batch| ==> ws[j].ev == batch[j]
      modifies this`acts
      ensures acts == old(acts) + Refusals(ws)
    {
      for i := 0 to |batch|
        invariant acts == old(acts) + Refusals(ws[..i])
      {
        assert Refusals(ws[..i + 1]) == Refusals(ws[..i]) + [Replied(batch[i], 0, SyncError)];
        acts := acts + [Replied(batch[i], 0, SyncError)];
      }
      assert ws[..|batch|] == ws;
    }

    method ReplyAll(batch: seq<Event>, appendOk: array<bool>, indices: array<nat>, ghost ws: seq<Written>)
      requires |ws| == |batch| && Noted(appendOk, indices, ws, |batch|)
      requires forall j :: 0 <= j < |batch| ==> ws[j].ev == batch[j] && (!ws[j].ok ==> indices[j] == ws[j].idx == 0)
      modifies this`acts
      ensures acts == old(acts) + Replies(ws)
    {
      for i := 0 to |batch|
        invariant acts == old(acts) + Replies(ws[..i])
      {
        var err := if appendOk[i] then NoError else AppendError;
        assert Replies(ws[..i + 1]) == Replies(ws[..i]) + [Replied(batch[i], indices[i], err)];
        acts := acts + [Replied(batch[i], indices[i], err)];
      }
      assert ws[..|batch|] == ws;
    }

    method DeliverAll(batch: seq<Event>, appendOk: array<bool>, indices: array<nat>, fx: Effects,
                      ghost ws: seq<Written>)
      requires |ws| == |batch| && Noted(appendOk, indices, ws, |batch|)
      requires forall j :: 0 <= j < |batch| ==> ws[j].ev == batch[j]
      modifies this`acts, this`stopped
      ensures acts == old(acts) + Sends(ws, Lost(old(stopped), fx))
      ensures stopped == (old(stopped) || fx.stop.Some?)
    {
      for i := 0 to |batch|
        invariant stopped == (old(stopped) || (fx.stop.Some? && fx.stop.value < i))
        invariant acts == old(acts) + Sends(ws[..i], Lost(old(stopped), fx))
      {
        assert ws[..i + 1][..i] == ws[..i];
        if fx.stop == Some(i) {
          stopped := true;
        }
        if appendOk[i] {
          var v := Envelope(indices[i], batch[i]);
          acts := acts + [if stopped && fx.skips(i) then Skipped(v) else Sent(v)];
        }
      }
      assert ws[..|batch|] == ws;
      stopped := stopped || fx.stop.Some?;
    }

    /** Appends every event, syncs once, and only then replies and delivers; a failed sync
        answers every waiter with the error and ends the process. */
    method Flush(batch: seq<Event>, fx: Effects)
      requires wal.Valid() && !exited
      modifies this`acts, this`exited, this`stopped, wal
      ensures wal.Valid()
      ensures batch == [] ==> acts == old(acts) && wal.log == old(wal.log) && !exited && stopped == old(stopped)
      ensures batch != [] ==>
        var ws := Results(batch, fx.appends, old(wal.log).Last() + 1);
        && acts == old(acts) + FlushActs(ws, fx.syncs, Lost(old(stopped), fx))
        && wal.log == FlushedLog(old(wal.log), ws, fx.syncs)
        && exited == !fx.syncs
        && stopped == (old(stopped) || (fx.syncs && fx.stop.Some?))
    {
      if batch == [] {
        return;
      }
      ghost var ws := Results(batch, fx.appends, wal.log.Last() + 1);
      var appendOk, indices := AppendBatch(batch, fx.appends, ws);
      wal.Sync(fx.syncs);
      if !fx.syncs {
        acts := acts + [SyncFailed];
        RefuseAll(batch, ws);
        exited := true;
        return;
      }
      acts := acts + [Synced];
      ReplyAll(batch, appendOk, indices, ws);
      DeliverAll(batch, appendOk, indices, fx, ws);
    }

    /** A flush together with what it keeps: it answers its batch and stays disciplined. */
    method FlushAll(batch: seq<Event>, fx: Effects)
      requires wal.Valid() && !exited && pending == [] && Disciplined(acts)
      modifies this`acts, this`exited, this`stopped, wal
      ensures wal.Valid() && Disciplined(acts) && Answered(acts) == Answered(old(acts)) + batch
      ensures batch == [] ==> acts == old(acts) && wal.log == old(wal.log) && !exited && stopped == old(stopped)
      ensures batch != [] ==> Flushed(batch, fx, old(acts), old(wal.log), old(stopped))
    {
      FlushKeepsValid(batch, fx, Lost(stopped, fx));
      Flush(batch, fx);
    }

    /** The loop is at its select. */
    ghost predicate Selecting()
      reads this, wal
    {
      Valid() && !exited && !returned
    }

    /** The select arm that receives a request; it may still win after stop was signalled. */
    method Take(req: Event, fx: Effects)
      requires Selecting()
      modifies this`pending, this`timerActive, this`acts, this`exited, this`stopped, this`taken, wal
      ensures Valid()
      ensures taken == old(taken) + [req]
      ensures |old(pending)| + 1 < batchMax ==>
        && pending == old(pending) + [req] && acts == old(acts) && wal.log == old(wal.log)
        && !exited && stopped == old(stopped)
      ensures |old(pending)| + 1 == batchMax ==>
        Flushed(old(pending) + [req], fx, old(acts), old(wal.log), old(stopped))
    {
      var batch := pending + [req];
      taken := taken + [req];
      if |batch| >= batchMax {
        timerActive := false;
        pending := [];
        FlushAll(batch, fx);
      } else {
        pending := batch;
        timerActive := true;
      }
    }

    /** The select arm of the flush timer. */
    method TimerFires(fx: Effects)
      requires Selecting() && timerActive
      modifies this`pending, this`timerActive, this`acts, this`exited, this`stopped, wal
      ensures Valid()
      ensures Flushed(old(pending), fx, old(acts), old(wal.log), old(stopped))
    {
      timerActive := false;
      if |pending| > 0 {
        var batch := pending;
        pending := [];
        FlushAll(batch, fx);
      }
    }

    /** The select arm of stop: the batch in hand is flushed and the loop returns. */
    method StopArm(fx: Effects)
      requires Selecting()
      modifies this`pending, this`timerActive, this`stopped, this`returned, this`acts, this`exited, wal
      ensures Valid() && stopped && returned
      ensures old(pending) == [] ==> acts == old(acts) && wal.log == old(wal.log) && !exited && pending == []
      ensures old(pending) != [] ==> Flushed(old(pending), fx, old(acts), old(wal.log), true)
    {
      stopped, returned := true, true;
      var batch := pending;
      pending := [];
      timerActive := false;
      FlushAll(batch, fx);
    }

    /** The batch has been flushed from the given history, log and stop flag, and nothing is
        pending. */
    ghost predicate Flushed(batch: seq<Event>, fx: Effects, acts0: seq<Act>, log0: Log, stopped0: bool)
      reads this, wal
    {
      && pending == []
      && log0.Valid()
      && var ws := Results(batch, fx.appends, log0.Last() + 1);
      && acts == acts0 + FlushActs(ws, fx.syncs, Lost(stopped0, fx))
      && wal.log == FlushedLog(log0, ws, fx.syncs)
      && exited == !fx.syncs
      && stopped == (stopped0 || (fx.syncs && fx.stop.Some?))
    }

    lemma FlushKeepsValid(batch: seq<Event>, fx: Effects, lost: nat -> bool)
      requires wal.Valid() && Disciplined(acts)
      ensures
        var ws := Results(batch, fx.appends, wal.log.Last() + 1);
        var after := acts + FlushActs(ws, fx.syncs, lost);
        Disciplined(after) && Answered(after) == Answered(acts) + batch
    {
      var ws := Results(batch, fx.appends, wal.log.Last() + 1);
      FlushDisciplined(acts, ws, fx.syncs, lost);
      FlushAnswersEach(ws, fx.syncs, lost);
      AnsweredConcat(acts, FlushActs(ws, fx.syncs, lost));
      assert seq(|ws|, i requires 0 <= i < |ws| => ws[i].ev) == batch;
    }
  }
}
