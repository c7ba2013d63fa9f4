/** The opt-out log as lines, for any decoder of a line: what a boot reads back from the bytes of
    the file. A file is a string with one char per byte. */
module OptOutLog {
  /** The hash a line holds, if any. */
  type Decoder = string -> set<string>

  /** The longest line the scanner takes is one byte shorter than its buffer. */
  const TOKEN: nat := 65536

  /** A hash and the bytes of the JSON object written for it. */
  datatype Record = Record(hash: string, body: string)

  /** The bytes after the last newline. */
  function Tail(f: string): string {
    if f == "" || f[|f| - 1] == '\n' then "" else Tail(f[..|f| - 1]) + [f[|f| - 1]]
  }

  /** What a decoder of lines finds in the newline-terminated ones. */
  function Complete(held: Decoder, f: string): set<string> {
    if f == "" then {}
    else
      var init := f[..|f| - 1];
      Complete(held, init) + if f[|f| - 1] == '\n' then held(Tail(init)) else {}
  }

  /** A last line without a newline is a line too. */
  function Readable(held: Decoder, f: string): set<string> {
    Complete(held, f) + held(Tail(f))
  }

  /** Some line overruns the scanner's buffer, which fails the boot. */
  predicate Long(f: string) {
    f != "" && (Long(f[..|f| - 1]) || |Tail(f)| >= TOKEN)
  }

  lemma {:induction false} Extend(held: Decoder, f: string, s: string)
    requires '\n' !in s
    ensures Tail(f + s) == Tail(f) + s && Complete(held, f + s) == Complete(held, f)
    ensures Long(f + s) <==> Long(f) || (s != "" && |Tail(f)| + |s| >= TOKEN)
  {
    if s == "" {
      assert f + s == f;
    } else {
      assert (f + s)[..|f + s| - 1] == f + s[..|s| - 1];
      Extend(held, f, s[..|s| - 1]);
    }
  }

  lemma EndLine(held: Decoder, f: string, s: string)
    requires '\n' !in s
    ensures Tail(f + s + "\n") == "" && Complete(held, f + s + "\n") == Complete(held, f) + held(Tail(f) + s)
    ensures Long(f + s + "\n") <==> Long(f + s)
  {
    Extend(held, f, s);
    assert (f + s + "\n")[..|f + s|] == f + s;
  }

  /** The text of a run of records. */
  function Text(rs: seq<Record>): string {
    if rs == [] then "" else Text(rs[..|rs| - 1]) + (rs[|rs| - 1].body + "\n")
  }

  /** White space inside a line. */
  predicate Blank(s: string) {
    forall i :: 0 <= i < |s| ==> s[i] == ' ' || s[i] == '\t' || s[i] == '\r'
  }

  /** What the decoder must make of a record's line: whole, with nothing but blanks before it, it
      is its hash; cut, or with anything else before it, it is nothing. */
  ghost predicate Fit(held: Decoder, r: Record) {
    && r.hash != "" && r.body != "" && '\n' !in r.body
    && (forall w :: Blank(w) ==> held(w) == {} && held(w + r.body) == {r.hash})
    && (forall w, n :: Blank(w) && 0 <= n < |r.body| ==> held(w + r.body[..n]) == {})
    && (forall w, n :: !Blank(w) && 0 < n <= |r.body| ==> held(w + r.body[..n]) == {})
  }

  ghost predicate AllFit(held: Decoder, rs: seq<Record>) {
    forall i :: 0 <= i < |rs| ==> Fit(held, rs[i])
  }

  function Hashes(rs: seq<Record>): set<string> {
    if rs == [] then {} else Hashes(rs[..|rs| - 1]) + {rs[|rs| - 1].hash}
  }

  /** A whole line is read after blanks, after anything else it is lost with what stood there. */
  lemma LineEffect(held: Decoder, f: string, r: Record)
    requires Fit(held, r)
    ensures Tail(f + (r.body + "\n")) == ""
    ensures Complete(held, f + (r.body + "\n")) == Complete(held, f) + if Blank(Tail(f)) then {r.hash} else {}
    ensures Long(f + (r.body + "\n")) <==> Long(f) || |Tail(f)| + |r.body| >= TOKEN
  {
    EndLine(held, f, r.body);
    Extend(held, f, r.body);
    Assoc(f, r.body, "\n");
    if !Blank(Tail(f)) {
      assert r.body[..|r.body|] == r.body;
      assert held(Tail(f) + r.body[..|r.body|]) == {};
    }
  }

  /** The same for a line cut short. */
  lemma CutEffect(held: Decoder, f: string, r: Record, n: nat)
    requires Fit(held, r) && n <= |r.body|
    ensures Blank(Tail(f)) ==>
      Readable(held, f + r.body[..n]) == Complete(held, f) + if n == |r.body| then {r.hash} else {}
    ensures !Blank(Tail(f)) ==>
      Readable(held, f + r.body[..n]) == if n == 0 then Readable(held, f) else Complete(held, f)
    ensures Long(f + r.body[..n]) <==> Long(f) || (n > 0 && |Tail(f)| + n >= TOKEN)
  {
    var p := r.body[..n];
    Extend(held, f, p);
    assert Readable(held, f + p) == Complete(held, f) + held(Tail(f) + p);
    if Blank(Tail(f)) {
      assert n == |r.body| ==> p == r.body;
    } else if n == 0 {
      assert Tail(f) + p == Tail(f);
    }
  }

  /** Some record appended to the file makes a line that overruns the scanner: the first one
      counts with what its line already holds. */
  predicate Overlong(base: string, rs: seq<Record>) {
    rs != [] &&
    (Overlong(base, rs[..|rs| - 1]) || |rs[|rs| - 1].body| + (if |rs| == 1 then |Tail(base)| else 0) >= TOKEN)
  }

  /** What is read of records appended to a file whose last line holds nothing but blanks, or
      something else: then the first of them is lost, with the line it was glued to. */
  ghost predicate ReadsBack(held: Decoder, base: string, rs: seq<Record>) {
    && (if rs == [] then base + Text(rs) == base else Tail(base + Text(rs)) == "")
    && Complete(held, base + Text(rs)) ==
         Complete(held, base) + (if Blank(Tail(base)) then Hashes(rs) else HashesAfterFirst(rs))
    && (Long(base + Text(rs)) <==> Long(base) || Overlong(base, rs))
  }

  lemma {:induction false} Appended(held: Decoder, base: string, rs: seq<Record>)
    requires AllFit(held, rs)
    ensures ReadsBack(held, base, rs)
  {
    if rs == [] {
      assert base + Text(rs) == base;
    } else {
      Appended(held, base, rs[..|rs| - 1]);
      AppendedStep(held, base, rs);
    }
  }

  lemma AppendedStep(held: Decoder, base: string, rs: seq<Record>)
    requires rs != [] && Fit(held, rs[|rs| - 1]) && ReadsBack(held, base, rs[..|rs| - 1])
    ensures ReadsBack(held, base, rs)
  {
    TextGrows(base, rs);
    LineEffect(held, base + Text(rs[..|rs| - 1]), rs[|rs| - 1]);
  }

  lemma TextGrows(base: string, rs: seq<Record>)
    requires rs != []
    ensures base + Text(rs) == base + Text(rs[..|rs| - 1]) + (rs[|rs| - 1].body + "\n")
  {
    Assoc(base, Text(rs[..|rs| - 1]), rs[|rs| - 1].body + "\n");
  }

  lemma Assoc(a: string, b: string, c: string)
    ensures a + (b + c) == a + b + c
  {}

  function HashesAfterFirst(rs: seq<Record>): set<string> {
    if |rs| <= 1 then {} else HashesAfterFirst(rs[..|rs| - 1]) + {rs[|rs| - 1].hash}
  }

  /** Exactly what a boot reads after the records and n bytes of one more line were appended. */
  lemma ReadBack(held: Decoder, base: string, rs: seq<Record>, r: Record, n: nat)
    requires AllFit(held, rs) && Fit(held, r) && n <= |r.body|
    ensures Blank(Tail(base)) ==>
      Readable(held, base + Text(rs) + r.body[..n]) ==
        Readable(held, base) + Hashes(rs) + if n == |r.body| then {r.hash} else {}
    ensures !Blank(Tail(base)) && rs != [] ==>
      Readable(held, base + Text(rs) + r.body[..n]) ==
        Complete(held, base) + HashesAfterFirst(rs) + if n == |r.body| then {r.hash} else {}
    ensures !Blank(Tail(base)) && rs == [] ==>
      Readable(held, base + Text(rs) + r.body[..n]) == if n == 0 then Readable(held, base) else Complete(held, base)
    ensures Long(base + Text(rs) + r.body[..n]) <==>
      Long(base) || Overlong(base, rs) || (n > 0 && n + (if rs == [] then |Tail(base)| else 0) >= TOKEN)
  {
    Appended(held, base, rs);
    CutEffect(held, base + Text(rs), r, n);
    if rs == [] {
      assert base + Text(rs) == base;
    }
  }

  /** Whether the first record added after opening a file survives: a boot succeeds and finds it
      exactly when the file's last line held nothing but blanks and no line overruns the scanner.
      Opening does not repair a torn last line. */
  lemma FirstRecordSurvivesExactlyAfterBlanks(held: Decoder, base: string, rs: seq<Record>)
    requires AllFit(held, rs) && rs != []
    requires rs[0].hash !in Complete(held, base) + HashesAfterFirst(rs)
    ensures !Long(base + Text(rs)) && rs[0].hash in Readable(held, base + Text(rs)) <==>
      Blank(Tail(base)) && !Long(base) && !Overlong(base, rs)
  {
    Appended(held, base, rs);
    HashesHolds(rs, 0);
    assert Fit(held, rs[0]) && Blank("");
  }

  lemma {:induction false} HashesHolds(rs: seq<Record>, i: nat)
    requires i < |rs|
    ensures rs[i].hash in Hashes(rs)
  {
    if i < |rs| - 1 {
      HashesHolds(rs[..|rs| - 1], i);
    }
  }

  lemma {:induction false} HashesGrow(rs: seq<Record>, n: nat)
    requires n <= |rs|
    ensures Hashes(rs[..n]) <= Hashes(rs)
  {
    if n == |rs| {
      assert rs[..n] == rs;
    } else {
      HashesGrow(rs[..|rs| - 1], n);
      assert rs[..|rs| - 1][..n] == rs[..n];
    }
  }

  /** Any prefix of a run's text is the text of some of its records and a cut of the next line. */
  lemma {:induction false} CutText(rs: seq<Record>, k: nat) returns (m: nat, n: nat)
    requires k < |Text(rs)|
    ensures m < |rs| && n <= |rs[m].body|
    ensures Text(rs)[..k] == Text(rs[..m]) + rs[m].body[..n]
  {
    var init, r := rs[..|rs| - 1], rs[|rs| - 1];
    if k < |Text(init)| {
      m, n := CutText(init, k);
      assert init[..m] == rs[..m];
      assert Text(rs)[..k] == Text(init)[..k];
    } else {
      m, n := |init|, k - |Text(init)|;
      CutLast(Text(init), r.body, n);
    }
  }

  lemma CutLast(text: string, body: string, n: nat)
    requires n <= |body|
    ensures (text + (body + "\n"))[..|text| + n] == text + body[..n]
  {}

  /** A prefix that holds the first j records is cut after them. */
  lemma {:induction false} TextGrowsWithRecords(rs: seq<Record>, j: nat, m: nat)
    requires j <= |rs| && m <= |rs|
    ensures m < j ==> |Text(rs[..m])| + |rs[m].body| + 1 <= |Text(rs[..j])|
  {
    if m < j {
      assert rs[..j][..j - 1] == rs[..j - 1];
      TextGrowsWithRecords(rs, j - 1, m);
    }
  }
}
