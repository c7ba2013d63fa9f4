/** The opt-out list: an in-memory set in front of its log, through write failures and crashes. */
module OptOut {
  import opened Basics
  import opened OptOutLog
  import opened OptOutRecord

  /** Where the scanner's next line ends: at its newline or at the end of the file. */
  method LineEnd(f: string, at: nat) returns (end: nat)
    requires at <= |f|
    ensures at <= end <= |f| && '\n' !in f[at..end] && (end < |f| ==> f[end] == '\n')
  {
    end := at;
    while end < |f| && f[end] != '\n'
      invariant at <= end <= |f| && '\n' !in f[at..end]
    {
      end := end + 1;
    }
  }

  /** Boot: every record in the file's lines, or None when a line overruns the scanner. */
  method Replay(f: string) returns (found: Option<set<string>>)
    ensures found == if Long(f) then None else Some(Readable(Held, f))
  {
    BlankIsEmpty("");
    found := Scan(Held, f);
  }

  /** The scan with any decoder that finds nothing in an empty line. */
  method Scan(held: Decoder, f: string) returns (found: Option<set<string>>)
    requires held("") == {}
    ensures found == if Long(f) then None else Some(Readable(held, f))
  {
    var hashes: set<string> := {};
    var at := 0;
    while at < |f|
      invariant Scanned(held, f, at, hashes)
      decreases |f| - at
    {
      var end;
      end, hashes := NextLine(held, f, at, hashes);
      if end - at >= TOKEN {
        return None;
      }
      if end == |f| {
        return Some(hashes);
      }
      at := end + 1;
    }
    ScanEnd(held, f, hashes);
    found := Some(hashes);
  }

  /** One turn of the scan: the next line, and what has been found with it. */
  method NextLine(held: Decoder, f: string, at: nat, hashes: set<string>) returns (end: nat, more: set<string>)
    requires at < |f| && Scanned(held, f, at, hashes)
    ensures at <= end <= |f|
    ensures end - at >= TOKEN ==> Long(f)
    ensures end - at < TOKEN && end == |f| ==> !Long(f) && more == Readable(held, f)
    ensures end - at < TOKEN && end < |f| ==> Scanned(held, f, end + 1, more)
  {
    end := LineEnd(f, at);
    ScanStep(held, f, at, end, hashes);
    more := hashes;
    if end - at < TOKEN {
      more := hashes + held(f[at..end]);
    }
  }

  ghost predicate Scanned(held: Decoder, f: string, at: nat, hashes: set<string>) {
    at <= |f| && Tail(f[..at]) == "" && hashes == Complete(held, f[..at]) && !Long(f[..at])
  }

  lemma ScanEnd(held: Decoder, f: string, hashes: set<string>)
    requires Scanned(held, f, |f|, hashes) && held("") == {}
    ensures !Long(f) && hashes == Readable(held, f)
  {
    assert f[..|f|] == f;
  }

  lemma ScanStep(held: Decoder, f: string, at: nat, end: nat, hashes: set<string>)
    requires Scanned(held, f, at, hashes) && at <= end <= |f| && '\n' !in f[at..end] && (end < |f| ==> f[end] == '\n')
    ensures end - at >= TOKEN ==> Long(f)
    ensures end - at < TOKEN && end == |f| ==> !Long(f) && Readable(held, f) == hashes + held(f[at..end])
    ensures end - at < TOKEN && end < |f| ==> Scanned(held, f, end + 1, hashes + held(f[at..end]))
  {
    ScanLine(held, f, at, end);
    if end - at >= TOKEN {
      LongStays(f, end);
    } else if end == |f| {
      assert f[..end] == f;
    } else {
      ScanNewline(held, f, end);
    }
  }

  /** The next line of a file read up to `at`, first without its newline. */
  lemma ScanLine(held: Decoder, f: string, at: nat, end: nat)
    requires at <= end <= |f| && '\n' !in f[at..end]
    requires Tail(f[..at]) == "" && !Long(f[..at])
    ensures Tail(f[..end]) == f[at..end] && Complete(held, f[..end]) == Complete(held, f[..at])
    ensures Long(f[..end]) <==> end - at >= TOKEN
  {
    Split(f, at, end);
    Extend(held, f[..at], f[at..end]);
    EmptyLeft(f[at..end]);
  }

  lemma ScanNewline(held: Decoder, f: string, end: nat)
    requires end < |f| && f[end] == '\n'
    ensures Tail(f[..end + 1]) == "" && Complete(held, f[..end + 1]) == Complete(held, f[..end]) + held(Tail(f[..end]))
    ensures Long(f[..end + 1]) <==> Long(f[..end])
  {
    assert f[..end + 1][..end] == f[..end];
  }

  lemma Split(f: string, at: nat, end: nat)
    requires at <= end <= |f|
    ensures f[..end] == f[..at] + f[at..end]
  {}

  lemma EmptyLeft(s: string)
    ensures "" + s == s
  {}

  lemma {:induction false} LongStays(f: string, n: nat)
    requires n <= |f| && Long(f[..n])
    ensures Long(f)
  {
    if n == |f| {
      assert f[..n] == f;
    } else {
      assert f[..|f| - 1][..n] == f[..n];
      LongStays(f[..|f| - 1], n);
    }
  }

  /** A crash may take any bytes that no successful fsync has covered. What then survives of the
      records is some of the whole ones, at least the covered ones, and a cut of one more. */
  lemma CrashCuts(base: string, rs: seq<Record>, last: Record, cut: nat, covered: nat, k: nat)
    returns (m: nat, r: Record, n: nat)
    requires covered <= |rs| && cut <= |last.body|
    requires |base| + |Text(rs[..covered])| <= k <= |base| + |Text(rs)| + cut
    ensures covered <= m <= |rs| && n <= |r.body|
    ensures (m < |rs| && r == rs[m]) || (m == |rs| && r == last && n <= cut)
    ensures (base + Text(rs) + last.body[..cut])[..k] == base + Text(rs[..m]) + r.body[..n]
  {
    var text, kept := Text(rs), k - |base|;
    if kept < |text| {
      m, n := CutText(rs, kept);
      r := rs[m];
      if m < covered {
        TextGrowsWithRecords(rs, covered, m);
        TextLength(rs, m, kept, n);
      }
      Cut(base, text, last.body[..cut], kept);
      Assoc(base, Text(rs[..m]), r.body[..n]);
    } else {
      m, r, n := |rs|, last, kept - |text|;
      assert rs[..m] == rs;
      assert (base + text + last.body[..cut])[..k] == base + text + last.body[..cut][..n];
      assert last.body[..cut][..n] == last.body[..n];
    }
  }

  lemma TextLength(rs: seq<Record>, m: nat, kept: nat, n: nat)
    requires m < |rs| && kept <= |Text(rs)| && n <= |rs[m].body| && Text(rs)[..kept] == Text(rs[..m]) + rs[m].body[..n]
    ensures kept == |Text(rs[..m])| + n
  {
    assert |Text(rs)[..kept]| == kept;
  }

  lemma Cut(a: string, b: string, c: string, k: nat)
    requires k <= |b|
    ensures (a + b + c)[..|a| + k] == a + b[..k]
  {}

  lemma EmptyRight(s: string)
    ensures s + "" == s
  {}

  /** A record written to a file whose last write did not fail. */
  lemma OneMoreRecord(base: string, rs: seq<Record>, r: Record)
    ensures base + Text(rs + [r]) == base + Text(rs) + (r.body + "\n")
    ensures Hashes(rs + [r]) == Hashes(rs) + {r.hash}
  {
    assert (rs + [r])[..|rs|] == rs;
    TextGrows(base, rs + [r]);
  }

  lemma Take(rs: seq<Record>, r: Record, n: nat)
    requires n <= |rs|
    ensures (rs + [r])[..n] == rs[..n] && (rs + [r])[..|rs| + 1] == rs + [r]
  {}

  /** The story of one life of the list: the file at its start and what was found in it, the
      records written since, how many of them an fsync covered, the piece of the one whose write
      failed, and the hashes acknowledged and asked for. */
  datatype Ledger = Ledger(base: string, found: set<string>, written: seq<Record>, covered: nat,
                           last: Record, torn: string, acked: set<string>, asked: set<string>)

  /** The file is what was found at boot, whole records, and a piece of the one whose write
      failed; what an fsync covered holds every acknowledged hash. */
  ghost predicate Tells(held: Decoder, l: Ledger, file: string, synced: nat, broken: bool) {
    && held("") == {}
    && file == l.base + Text(l.written) + l.torn
    && AllFit(held, l.written) && Hashes(l.written) <= l.asked
    && (l.torn == "" || (broken && Fit(held, l.last) && l.torn <= l.last.body && l.last.hash in l.asked))
    && l.covered <= |l.written| && synced == |l.base| + |Text(l.written[..l.covered])|
    && l.acked <= Hashes(l.written[..l.covered])
  }

  function Asked(l: Ledger, hash: string): Ledger {
    l.(asked := l.asked + {hash})
  }

  lemma TellsAsked(held: Decoder, l: Ledger, file: string, synced: nat, broken: bool, hash: string)
    requires Tells(held, l, file, synced, broken)
    ensures Tells(held, Asked(l, hash), file, synced, broken)
  {
  }

  lemma TellsTorn(held: Decoder, l: Ledger, file: string, synced: nat, r: Record, n: nat)
    requires Tells(held, l, file, synced, false) && Fit(held, r) && n <= |r.body| && r.hash in l.asked
    ensures Tells(held, l.(last := r, torn := r.body[..n]), file + r.body[..n], synced, true)
  {
    EmptyRight(l.base + Text(l.written));
  }

  lemma TellsWritten(held: Decoder, l: Ledger, file: string, synced: nat, broken: bool, r: Record)
    requires Tells(held, l, file, synced, false) && Fit(held, r) && r.hash in l.asked
    ensures Tells(held, l.(written := l.written + [r]), file + (r.body + "\n"), synced, broken)
    ensures r.hash in Hashes(l.written + [r])
  {
    OneMoreRecord(l.base, l.written, r);
    Take(l.written, r, l.covered);
    EmptyRight(l.base + Text(l.written));
    EmptyRight(l.base + Text(l.written + [r]));
  }

  lemma TellsSynced(held: Decoder, l: Ledger, file: string, synced: nat, hash: string)
    requires Tells(held, l, file, synced, false) && hash in Hashes(l.written)
    ensures Tells(held, l.(covered := |l.written|, acked := l.acked + {hash}), file, |file|, false)
  {
    EmptyRight(l.base + Text(l.written));
    HashesGrow(l.written, l.covered);
    assert l.written[..|l.written|] == l.written;
  }

  class SuppressionList {
    const held: Decoder
    const encode: (string, int) -> string
    var hashes: set<string>
    /** The file's bytes, and how many of them an fsync has covered. */
    var file: string
    var synced: nat
    /** The buffered writer refuses everything after its first error. */
    var broken: bool
    ghost var l: Ledger

    ghost predicate Valid()
      reads this
    {
      Tells(held, l, file, synced, broken) && hashes == l.found + l.acked
    }

    /** A list on a file that is all on disk, with what the scan found in it. */
    constructor (held: Decoder, encode: (string, int) -> string, f: string, found: set<string>)
      requires held("") == {}
      ensures Valid() && this.held == held && this.encode == encode && l.base == f && l.found == found &&
        hashes == found
      ensures file == f && synced == |f| && !broken && l.acked == l.asked == {}
    {
      this.held, this.encode := held, encode;
      hashes, file, synced, broken := found, f, |f|, false;
      l := Ledger(f, found, [], 0, Record("", ""), "", {}, {});
      new;
      EmptyRight(f);
    }

    /** Asks to suppress a hash whose encoding the decoder reads back. The write may fail after
        any number of bytes, even all, and the fsync after it; only after both does the hash count
        as suppressed. */
    method Add(hash: string, at: int, taken: nat, wrote: bool, flushed: bool) returns (ok: bool)
      requires Valid()
      requires hash == "" || Fit(held, Record(hash, encode(hash, at)))
      requires taken <= |encode(hash, at)| + 1
      modifies this
      ensures Valid() && l.base == old(l.base) && l.found == old(l.found) && l.asked == old(l.asked) + {hash}
      ensures ok <==> hash != "" && !old(broken) && wrote && flushed
      ensures ok ==> l.acked == old(l.acked) + {hash} && hashes == old(hashes) + {hash} && synced == |file|
      ensures ok ==> file == old(file) + (encode(hash, at) + "\n")
      ensures !ok ==> l.acked == old(l.acked) && hashes == old(hashes) && synced == old(synced)
      ensures old(file) <= file && broken == (old(broken) || (hash != "" && !wrote))
    {
      TellsAsked(held, l, file, synced, broken, hash);
      l := Asked(l, hash);
      if hash == "" || broken {
        return false;
      }
      ok := Write(Record(hash, encode(hash, at)), taken, wrote);
      if ok {
        ok := Sync(hash, flushed);
      }
    }

    /** The write and flush inside `Add`. */
    method Write(r: Record, taken: nat, wrote: bool) returns (ok: bool)
      requires Valid() && !broken && Fit(held, r) && r.hash in l.asked && taken <= |r.body| + 1
      modifies this`file, this`broken, this`l
      ensures Valid() && broken == !wrote && ok == wrote && old(file) <= file
      ensures l == old(l).(written := l.written, last := l.last, torn := l.torn)
      ensures ok ==> r.hash in Hashes(l.written) && file == old(file) + (r.body + "\n")
    {
      broken := !wrote;
      if !wrote && taken <= |r.body| {
        TellsTorn(held, l, file, synced, r, taken);
        l := l.(last := r, torn := r.body[..taken]);
        file := file + r.body[..taken];
        return false;
      }
      TellsWritten(held, l, file, synced, !wrote, r);
      l := l.(written := l.written + [r]);
      file := file + (r.body + "\n");
      ok := wrote;
    }

    /** The fsync inside `Add`. */
    method Sync(hash: string, flushed: bool) returns (ok: bool)
      requires Valid() && !broken && hash in Hashes(l.written)
      modifies this`l, this`synced, this`hashes
      ensures Valid() && ok == flushed
      ensures ok ==> l == old(l).(covered := |l.written|, acked := old(l).acked + {hash})
      ensures ok ==> hashes == old(hashes) + {hash} && synced == |file|
      ensures !ok ==> l == old(l) && hashes == old(hashes) && synced == old(synced)
    {
      if !flushed {
        return false;
      }
      TellsSynced(held, l, file, synced, hash);
      l := l.(covered := |l.written|, acked := l.acked + {hash});
      synced := |file|;
      hashes := hashes + {hash};
      ok := true;
    }

    method IsSuppressed(hash: string) returns (b: bool)
      requires Valid()
      ensures b <==> hash != "" && hash in l.found + l.acked
    {
      if hash == "" {
        return false;
      }
      b := hash in hashes;
    }
  }

  /** Opening a file fails exactly when a line overruns the scanner. */
  method Open(f: string) returns (list: SuppressionList?)
    ensures list == null <==> Long(f)
    ensures list != null ==> fresh(list) && list.Valid() && list.held == Held && list.encode == Body
    ensures list != null ==> list.l.base == f && list.l.found == Readable(Held, f) && list.l.acked == {} == list.l.asked
  {
    var found := Replay(f);
    if found.None? {
      return null;
    }
    BlankIsEmpty("");
    list := new SuppressionList(Held, Body, f, found.value);
  }

  /** After any run of `Add` and a crash that keeps any prefix the fsyncs allow, a boot finds
      nothing that was never asked for. Where the last line of the file held nothing but blanks it
      finds every hash that was acknowledged, in this life or found at its start; and it does not
      overrun the scanner unless a line written did. */
  lemma RecoveryIsExact(held: Decoder, l: Ledger, file: string, synced: nat, broken: bool, k: nat)
    requires Tells(held, l, file, synced, broken) && synced <= k <= |file|
    ensures Readable(held, file[..k]) <= Readable(held, l.base) + l.asked
    ensures Blank(Tail(l.base)) ==> Readable(held, l.base) + l.acked <= Readable(held, file[..k])
    ensures !Long(l.base) && !Overlong(l.base, l.written) && |Tail(l.base)| + |l.torn| < TOKEN ==> !Long(file[..k])
  {
    var rs := l.written;
    var last := if l.torn == "" then Record("", "") else l.last;
    assert last.body[..|l.torn|] == l.torn;
    var m, r, n := CrashCuts(l.base, rs, last, |l.torn|, l.covered, k);
    SomeRead(held, l.base, rs, m, r, n);
    CoveredRead(rs, m, l.covered);
    if m < |rs| {
      HashesHolds(rs, m);
    }
    WholeFileFits(held, l, file, synced, broken);
    if !Long(file) {
      CutIsNotLonger(file, k);
    }
  }

  /** The whole file overruns the scanner only if some line of it does. */
  lemma WholeFileFits(held: Decoder, l: Ledger, file: string, synced: nat, broken: bool)
    requires Tells(held, l, file, synced, broken)
    ensures !Long(l.base) && !Overlong(l.base, l.written) && |Tail(l.base)| + |l.torn| < TOKEN ==> !Long(file)
  {
    if l.torn == "" {
      Appended(held, l.base, l.written);
      EmptyRight(l.base + Text(l.written));
    } else {
      assert l.last.body[..|l.torn|] == l.torn;
      ReadBack(held, l.base, l.written, l.last, |l.torn|);
    }
  }

  lemma CoveredRead(rs: seq<Record>, m: nat, covered: nat)
    requires covered <= m <= |rs|
    ensures Hashes(rs[..covered]) <= Hashes(rs[..m])
  {
    HashesGrow(rs[..m], covered);
    assert rs[..m][..covered] == rs[..covered];
  }

  lemma SomeRead(held: Decoder, base: string, rs: seq<Record>, m: nat, r: Record, n: nat)
    requires m <= |rs| && AllFit(held, rs) && held("") == {} && n <= |r.body| && (n == 0 || Fit(held, r))
    ensures var f := base + Text(rs[..m]) + r.body[..n];
      && Readable(held, f) <= Readable(held, base) + Hashes(rs) + (if n == 0 then {} else {r.hash})
      && (Blank(Tail(base)) ==> Readable(held, base) + Hashes(rs[..m]) <= Readable(held, f))
  {
    HashesGrow(rs, m);
    AfterFirstIsLess(rs[..m]);
    if n == 0 {
      Appended(held, base, rs[..m]);
      assert r.body[..n] == "";
      EmptyRight(base + Text(rs[..m]));
      if m > 0 && Blank(Tail(base)) {
        assert Fit(held, rs[0]) && held(Tail(base)) == {};
      }
    } else {
      ReadBack(held, base, rs[..m], r, n);
    }
  }

  lemma {:induction false} AfterFirstIsLess(rs: seq<Record>)
    ensures HashesAfterFirst(rs) <= Hashes(rs)
  {
    if |rs| > 1 {
      AfterFirstIsLess(rs[..|rs| - 1]);
    }
  }

  /** Cutting a file cannot make it overrun the scanner. */
  lemma CutIsNotLonger(f: string, k: nat)
    requires k <= |f| && !Long(f)
    ensures !Long(f[..k])
  {
    if Long(f[..k]) {
      LongStays(f, k);
      assert false;
    }
  }

  /** A record that overruns the scanner is acknowledged like any other, and once it is on disk
      every later boot fails. */
  lemma OverlongFailsEveryBoot(held: Decoder, l: Ledger, file: string, synced: nat, broken: bool, k: nat)
    requires Tells(held, l, file, synced, broken) && synced <= k <= |file|
    requires Long(l.base) || Overlong(l.base, l.written[..l.covered])
    ensures Long(file[..k])
  {
    var rs := l.written[..l.covered];
    Appended(held, l.base, rs);
    PrefixOfText(l.base, l.written, l.covered, l.torn);
    assert |l.base + Text(rs)| == synced && file[..synced] == l.base + Text(rs);
    assert file[..k][..synced] == file[..synced];
    LongStays(file[..k], synced);
  }

  lemma {:induction false} PrefixOfText(base: string, rs: seq<Record>, n: nat, torn: string)
    requires n <= |rs|
    ensures base + Text(rs[..n]) <= base + Text(rs) + torn
  {
    if n == |rs| {
      assert rs[..n] == rs;
    } else {
      PrefixOfText(base, rs[..|rs| - 1], n, rs[|rs| - 1].body + "\n" + torn);
      assert rs[..|rs| - 1][..n] == rs[..n];
      assert base + Text(rs[..|rs| - 1]) + (rs[|rs| - 1].body + "\n" + torn) == base + Text(rs) + torn;
    }
  }
}
