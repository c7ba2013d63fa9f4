/** What the query budget admits, measured by the actor's own events: a call is refused exactly
    when a cap is used up. */
module BudgetLaws {
  import opened Basics
  import opened Budget

  /** The clock is monotone. */
  ghost predicate InOrder(past: seq<Event>) {
    forall i, j :: 0 <= i < j < |past| ==> past[i].now <= past[j].now
  }

  /** No event is later than now. */
  ghost predicate By(past: seq<Event>, now: int) {
    forall i :: 0 <= i < |past| ==> past[i].now <= now
  }

  /** When the current window opened: at the first event a minute or more after the window before
      opened. A call that fails opens none. */
  function OpenedAt(past: seq<Event>): Option<int> {
    if past == [] then None
    else
      var before, e := OpenedAt(past[..|past| - 1]), past[|past| - 1];
      if e.Fail? then before
      else if before.None? || e.now - before.value >= MINUTE then Some(e.now) else before
  }

  /** The start of the window that an event at `now` falls in. */
  function WindowStart(past: seq<Event>, now: int): int {
    var since := OpenedAt(past);
    if since.None? || now - since.value >= MINUTE then now else since.value
  }

  /** What the actor used in all its life. */
  function Whole(caps: Caps, past: seq<Event>, m: Meter): nat {
    if past == [] then 0
    else Whole(caps, past[..|past| - 1], m) + Weight(caps, past[..|past| - 1], past[|past| - 1], m)
  }

  /** The sites touched with lo <= now < hi. */
  function SitesIn(past: seq<Event>, lo: int, hi: int): set<nat> {
    if past == [] then {}
    else
      var e := past[|past| - 1];
      SitesIn(past[..|past| - 1], lo, hi) + if e.Note? && lo <= e.now < hi then {e.site} else {}
  }

  lemma {:induction false} WindowIs(caps: Caps, past: seq<Event>)
    ensures After(caps, past).Some? <==> OpenedAt(past).Some?
    ensures After(caps, past).Some? ==> After(caps, past).value.winStart == OpenedAt(past).value
  {
    if past != [] {
      WindowIs(caps, past[..|past| - 1]);
    }
  }

  /** Nothing was used after the end of the window that is open. */
  lemma {:induction false} NothingBeyond(caps: Caps, past: seq<Event>, lo: int, hi: int)
    requires OpenedAt(past).Some? ==> lo >= OpenedAt(past).value + MINUTE
    ensures Used(caps, past, Calls, lo, hi) == 0 && Used(caps, past, Rows, lo, hi) == 0 && SitesIn(past, lo, hi) == {}
  {
    if past != [] {
      NothingBeyond(caps, past[..|past| - 1], lo, hi);
    }
  }

  /** The bucket reads what was used since its window opened. */
  lemma {:induction false} WindowReads(caps: Caps, past: seq<Event>, hi: int)
    requires InOrder(past) && (forall i :: 0 <= i < |past| ==> past[i].now < hi) && After(caps, past).Some?
    ensures var b := After(caps, past).value;
      && Used(caps, past, Calls, b.winStart, hi) == b.calls
      && Used(caps, past, Rows, b.winStart, hi) == b.rows
      && SitesIn(past, b.winStart, hi) == b.sites
  {
    var before, e := past[..|past| - 1], past[|past| - 1];
    var b := After(caps, before);
    WindowIs(caps, before);
    if b.Some? {
      WindowReads(caps, before, hi);
    }
    if !e.Fail? && (b.None? || e.now - b.value.winStart >= MINUTE) {
      NothingBeyond(caps, before, e.now, hi);
    } else if !e.Fail? {
      StartsEarlier(caps, before);
    }
  }

  /** A window opens no later than the latest event. */
  lemma {:induction false} StartsEarlier(caps: Caps, past: seq<Event>)
    requires InOrder(past) && After(caps, past).Some?
    ensures past != [] && After(caps, past).value.winStart <= past[|past| - 1].now
  {
    if After(caps, past[..|past| - 1]).Some? {
      StartsEarlier(caps, past[..|past| - 1]);
    }
  }

  lemma {:induction false} SpentIsWhole(caps: Caps, past: seq<Event>, m: Meter)
    ensures Spent(After(caps, past), m) == Whole(caps, past, m)
  {
    if past != [] {
      SpentIsWhole(caps, past[..|past| - 1], m);
    }
  }

  /** What the window of an event at `now` has used so far. */
  function InWindow(caps: Caps, past: seq<Event>, m: Meter, now: int): nat {
    Used(caps, past, m, WindowStart(past, now), now + 1)
  }

  /** The bucket as an event at `now` finds it. */
  lemma TurnReads(caps: Caps, past: seq<Event>, now: int)
    requires InOrder(past) && By(past, now)
    ensures var b := Turn(After(caps, past), now);
      && b.winStart == WindowStart(past, now)
      && b.calls == InWindow(caps, past, Calls, now) && b.rows == InWindow(caps, past, Rows, now)
      && b.sites == SitesIn(past, WindowStart(past, now), now + 1)
      && b.sessCalls == Whole(caps, past, Calls) && b.sessRows == Whole(caps, past, Rows)
  {
    SpentIsWhole(caps, past, Calls);
    SpentIsWhole(caps, past, Rows);
    WindowIs(caps, past);
    if OpenedAt(past).None? || now - OpenedAt(past).value >= MINUTE {
      NothingBeyond(caps, past, now, now + 1);
    } else {
      WindowReads(caps, past, now + 1);
    }
  }

  /** A call is admitted exactly when it finds every positive cap above what was used: the calls
      of its window below the actor's cap and below the tool's own, the rows charged in its window
      below the row cap, and the calls and rows of the actor's whole life below the lifetime
      caps. */
  lemma AdmittedExactly(caps: Caps, past: seq<Event>, now: int, tool: int)
    requires InOrder(past) && By(past, now)
    ensures Admitted(caps, past, Reserve(now, tool)) <==>
      && (caps.calls > 0 ==> InWindow(caps, past, Calls, now) < caps.calls)
      && (tool > 0 ==> InWindow(caps, past, Calls, now) < tool)
      && (caps.rows > 0 ==> InWindow(caps, past, Rows, now) < caps.rows)
      && (caps.sessCalls > 0 ==> Whole(caps, past, Calls) < caps.sessCalls)
      && (caps.sessRows > 0 ==> Whole(caps, past, Rows) < caps.sessRows)
  {
    TurnReads(caps, past, now);
  }

  /** What a charge reports: all rows charged in the window, its own included. */
  lemma ChargeReports(caps: Caps, past: seq<Event>, now: int, rows: nat)
    requires InOrder(past) && By(past, now)
    ensures After(caps, past + [Charge(now, rows)]).Some?
    ensures After(caps, past + [Charge(now, rows)]).value.rows == InWindow(caps, past, Rows, now) + rows
  {
    Appended(caps, past, Charge(now, rows));
    TurnReads(caps, past, now);
  }

  /** What a note reports: the distinct sites touched in the window, its own included. */
  lemma NoteReports(caps: Caps, past: seq<Event>, now: int, site: nat)
    requires InOrder(past) && By(past, now)
    ensures After(caps, past + [Note(now, site)]).Some?
    ensures After(caps, past + [Note(now, site)]).value.sites == SitesIn(past, WindowStart(past, now), now + 1) + {site}
  {
    Appended(caps, past, Note(now, site));
    TurnReads(caps, past, now);
  }
}
