/** The bytes of one opt-out record: the JSON object written for a hash, and how a line is read. */
module OptOutRecord {
  import opened Basics
  import opened OptOutLog

  const HEAD: string := "{\"hash\":\""
  const MIDDLE: string := "\",\"at\":"
  /** A character that JSON encoding leaves as it is. */
  predicate PlainChar(c: char) {
    ' ' <= c <= '~' && c != '"' && c != '\\' && c != '<' && c != '>' && c != '&'
  }

  predicate Plain(s: string) {
    forall i :: 0 <= i < |s| ==> PlainChar(s[i])
  }

  function Digits(n: nat): (s: string)
    ensures Number(s)
    ensures n > 0 ==> s[0] != '0'
  {
    if n < 10 then [('0' as int + n) as char] else Digits(n / 10) + [('0' as int + n % 10) as char]
  }

  function Decimal(n: int): (s: string)
    ensures Integer(s)
  {
    if n < 0 then "-" + Digits(-n) else Digits(n)
  }

  predicate Number(s: string) {
    |s| > 0 && (|s| > 1 ==> s[0] != '0') && forall i :: 0 <= i < |s| ==> '0' <= s[i] <= '9'
  }

  predicate Integer(s: string) {
    |s| > 0 && Number(if s[0] == '-' then s[1..] else s)
  }

  function Body(hash: string, at: int): string {
    HEAD + hash + MIDDLE + Decimal(at) + "}"
  }

  function Find(s: string, c: char): (i: nat)
    ensures i <= |s| && (i < |s| ==> s[i] == c) && forall j :: 0 <= j < i ==> s[j] != c
  {
    if s == "" || s[0] == c then 0 else 1 + Find(s[1..], c)
  }

  /** The line is a record whose hash has n characters. */
  predicate Shaped(line: string, n: nat) {
    var body, mid := |HEAD| + n, |HEAD| + n + |MIDDLE|;
    && mid + 1 < |line|
    && HEAD <= line
    && Plain(line[|HEAD|..body])
    && line[body..mid] == MIDDLE
    && Integer(line[mid..|line| - 1])
    && line[|line| - 1] == '}'
  }

  lemma IntegerChars(s: string, i: nat)
    requires Integer(s) && i < |s|
    ensures s[i] != '{' && s[i] != '}' && s[i] != '"' && s[i] != '\n'
  {
    if s[0] == '-' && i > 0 {
      assert s[i] == s[1..][i - 1];
    }
  }

  /** A record's characters one by one. */
  lemma ShapedChars(line: string, n: nat)
    requires Shaped(line, n)
    ensures forall i :: |HEAD| <= i < |HEAD| + n ==> PlainChar(line[i])
    ensures forall i :: |HEAD| + n <= i < |HEAD| + n + |MIDDLE| ==> line[i] == MIDDLE[i - |HEAD| - n]
    ensures forall i :: |HEAD| + n + |MIDDLE| <= i < |line| - 1 ==> line[i] != '{' && line[i] != '}' && line[i] != '"'
  {
    var body, mid := |HEAD| + n, |HEAD| + n + |MIDDLE|;
    forall i | |HEAD| <= i < body ensures PlainChar(line[i]) {
      assert line[i] == line[|HEAD|..body][i - |HEAD|];
    }
    forall i | body <= i < mid ensures line[i] == MIDDLE[i - body] {
      assert line[i] == line[body..mid][i - body];
    }
    forall i | mid <= i < |line| - 1 ensures line[i] != '{' && line[i] != '}' && line[i] != '"' {
      IntegerChars(line[mid..|line| - 1], i - mid);
      assert line[i] == line[mid..|line| - 1][i - mid];
    }
  }

  lemma ShapedOnce(line: string, n: nat)
    requires HEAD <= line && n == Find(line[|HEAD|..], '"')
    ensures forall k: nat :: Shaped(line, k) ==> k == n
  {
    var rest := line[|HEAD|..];
    forall k: nat | Shaped(line, k) ensures k == n {
      ShapedChars(line, k);
      assert rest[k] == line[|HEAD| + k] == MIDDLE[0];
      assert n < |rest| ==> rest[n] == line[|HEAD| + n];
    }
  }

  /** The hash a line holds, or None for a line that is no record: the exact form `Add` writes. */
  function Decode(line: string): Option<string> {
    if !(HEAD <= line) then None
    else
      var n := Find(line[|HEAD|..], '"');
      if Shaped(line, n) then Some(line[|HEAD|..|HEAD| + n]) else None
  }

  /** A line is read exactly when it has the shape of a record, for one length of hash. */
  lemma DecodeMeans(line: string)
    ensures Decode(line).Some? ==> Shaped(line, |Decode(line).value|)
    ensures forall n: nat :: Shaped(line, n) ==> Decode(line) == Some(line[|HEAD|..|HEAD| + n])
  {
    if HEAD <= line {
      ShapedOnce(line, Find(line[|HEAD|..], '"'));
    }
  }

  /** Round trip: a record's line decodes to its hash. */
  lemma DecodeEncode(hash: string, at: int)
    requires Plain(hash)
    ensures Decode(Body(hash, at)) == Some(hash)
    ensures Shaped(Body(hash, at), |hash|)
  {
    BodyShaped(hash, Decimal(at), Body(hash, at));
    DecodeMeans(Body(hash, at));
  }

  lemma BodyShaped(hash: string, num: string, s: string)
    requires Plain(hash) && Integer(num) && s == HEAD + hash + MIDDLE + num + "}"
    ensures Shaped(s, |hash|) && s[|HEAD|..|HEAD| + |hash|] == hash
  {
    var n := |hash|;
    var mid := |HEAD| + n + |MIDDLE|;
    assert s[..|HEAD|] == HEAD;
    assert s[|HEAD|..|HEAD| + n] == hash;
    assert s[|HEAD| + n..mid] == MIDDLE;
    assert s[mid..|s| - 1] == num;
  }

  /** A record cut short is no record. */
  lemma TornIsUnreadable(hash: string, at: int, n: nat)
    requires Plain(hash) && n < |Body(hash, at)|
    ensures Decode(Body(hash, at)[..n]).None?
  {
    DecodeEncode(hash, at);
    NoShapedPrefix(Body(hash, at), |hash|, n);
    DecodeMeans(Body(hash, at)[..n]);
  }

  lemma NoShapedPrefix(s: string, k: nat, n: nat)
    requires Shaped(s, k) && n < |s|
    ensures forall j: nat :: !Shaped(s[..n], j)
  {
    forall j: nat ensures !Shaped(s[..n], j) {
      if Shaped(s[..n], j) {
        ShapedPrefixIsWhole(s, k, n, j);
        assert false;
      }
    }
  }

  lemma ShapedPrefixIsWhole(s: string, k: nat, n: nat, j: nat)
    requires n <= |s| && Shaped(s, k) && Shaped(s[..n], j)
    ensures n == |s|
  {
    var t := s[..n];
    ShapedChars(s, k);
    ShapedChars(t, j);
    assert t[|HEAD| + j] == s[|HEAD| + j] == '"';
    assert j >= k;
    assert t[n - 1] == s[n - 1] == '}';
  }

  /** A record, whole or cut, that does not start its line is never read, nor is what stands
      before it. */
  lemma GluedIsUnreadable(before: string, hash: string, at: int, n: nat)
    requires before != "" && 0 < n <= |Body(hash, at)|
    ensures Decode(before + Body(hash, at)[..n]).None?
  {
    var s, b := before + Body(hash, at)[..n], |before|;
    assert s[b] == '{';
    assert n > 1 ==> s[b + 1] == Body(hash, at)[1] == '"';
    assert n > 2 ==> s[b + 2] == Body(hash, at)[2] == 'h';
    assert |s| == b + n;
    NothingGluedIsShaped(s, b);
    DecodeMeans(s);
  }

  lemma NothingGluedIsShaped(s: string, b: nat)
    requires 0 < b < |s| && s[b] == '{'
    requires b + 1 < |s| ==> s[b + 1] == '"'
    requires b + 2 < |s| ==> s[b + 2] == 'h'
    ensures forall k: nat :: !Shaped(s, k)
  {
    forall k: nat ensures !Shaped(s, k) {
      if Shaped(s, k) {
        ShapedChars(s, k);
        assert b >= |HEAD| by { assert HEAD[0] == '{' && forall i :: 0 < i < |HEAD| ==> HEAD[i] != '{'; }
        assert s[|HEAD| + k] == '"' && s[|HEAD| + k + 1] == ',';
        assert forall i :: 0 <= i < |MIDDLE| ==> MIDDLE[i] != '{';
        assert false;
      }
    }
  }

  function TrimLeft(s: string): string {
    if s != "" && Blank(s[..1]) then TrimLeft(s[1..]) else s
  }

  function TrimRight(s: string): string {
    if s != "" && Blank(s[|s| - 1..]) then TrimRight(s[..|s| - 1]) else s
  }

  /** The decoder of the scan loop: blanks around the object do not matter, and an empty hash is
      skipped like a line that is no record. */
  function Held(line: string): set<string> {
    var h := Decode(TrimRight(TrimLeft(line)));
    if h.Some? && h.value != "" then {h.value} else {}
  }

  /** Blanks in front disappear; anything else keeps what follows it. */
  lemma {:induction false} TrimLeftOf(w: string, x: string)
    ensures Blank(w) ==> TrimLeft(w + x) == TrimLeft(x)
    ensures !Blank(w) ==> TrimLeft(w) != "" && TrimLeft(w + x) == TrimLeft(w) + x
  {
    if w == "" {
      assert w + x == x;
    } else {
      assert (w + x)[1..] == w[1..] + x && (w + x)[..1] == w[..1];
      assert w == w[..1] + w[1..];
      TrimLeftOf(w[1..], x);
    }
  }

  /** Trimming at the end leaves a prefix that still holds everything up to a character that is
      no blank. */
  lemma {:induction false} TrimRightKeeps(s: string, i: nat)
    requires i < |s| && !Blank([s[i]])
    ensures i < |TrimRight(s)| <= |s| && TrimRight(s) == s[..|TrimRight(s)|]
  {
    if Blank(s[|s| - 1..]) {
      assert s[|s| - 1..] == [s[|s| - 1]];
      TrimRightKeeps(s[..|s| - 1], i);
      assert s[..|s| - 1][..|TrimRight(s)|] == s[..|TrimRight(s)|];
    } else {
      assert s[..|s|] == s;
    }
  }

  /** What is left of a body, whole or cut, that stands after something. */
  lemma TrimmedBody(w: string, body: string, n: nat) returns (m: nat)
    requires 0 < n <= |body| && body[0] == '{' && body[|body| - 1] == '}'
    ensures 0 < m <= n && (n == |body| ==> m == n)
    ensures TrimRight(TrimLeft(w + body[..n])) == (if Blank(w) then "" else TrimLeft(w)) + body[..m]
  {
    var p, v := body[..n], if Blank(w) then "" else TrimLeft(w);
    TrimLeftOf(w, p);
    assert p[..1] == [p[0]] && !Blank(p[..1]);
    assert TrimLeft(p) == p && "" + p == p;
    var s := v + p;
    var last := if n == |body| then |s| - 1 else |v|;
    assert s[last] == if n == |body| then '}' else '{';
    assert [s[last]][0] == s[last];
    TrimRightKeeps(s, last);
    m := |TrimRight(s)| - |v|;
    assert s[..|v| + m] == v + body[..m];
  }

  lemma {:induction false} BlankIsEmpty(w: string)
    requires Blank(w)
    ensures TrimLeft(w) == ""
  {
    if w != "" {
      BlankIsEmpty(w[1..]);
    }
  }

  lemma BodyHasNoNewline(hash: string, at: int)
    requires Plain(hash)
    ensures '\n' !in Body(hash, at)
  {
    var num := Decimal(at);
    forall i | 0 <= i < |num| ensures num[i] != '\n' {
      IntegerChars(num, i);
    }
  }

  lemma BodyEnds(hash: string, at: int)
    ensures var body := Body(hash, at); body != "" && body[0] == '{' && body[|body| - 1] == '}'
  {
    assert Body(hash, at)[0] == HEAD[0];
  }

  lemma NothingInBlanks(w: string)
    requires Blank(w)
    ensures Held(w) == {}
  {
    BlankIsEmpty(w);
  }

  lemma HeldAfterBlanks(hash: string, at: int, w: string)
    requires hash != "" && Plain(hash) && Blank(w)
    ensures Held(w + Body(hash, at)) == {hash}
  {
    DecodeEncode(hash, at);
    BodyEnds(hash, at);
    TrimmedWhole(w, Body(hash, at));
  }

  lemma TrimmedWhole(w: string, body: string)
    requires Blank(w) && body != "" && body[0] == '{' && body[|body| - 1] == '}'
    ensures TrimRight(TrimLeft(w + body)) == body
  {
    var m := TrimmedBody(w, body, |body|);
    assert body[..|body|] == body && "" + body == body;
  }

  lemma HeldCut(hash: string, at: int, w: string, n: nat)
    requires Plain(hash) && Blank(w) && n < |Body(hash, at)|
    ensures Held(w + Body(hash, at)[..n]) == {}
  {
    var body := Body(hash, at);
    if n == 0 {
      BlankIsEmpty(w);
      assert w + body[..0] == w;
    } else {
      BodyEnds(hash, at);
      var m := TrimmedBody(w, body, n);
      assert "" + body[..m] == body[..m];
      TornIsUnreadable(hash, at, m);
    }
  }

  lemma HeldGlued(hash: string, at: int, w: string, n: nat)
    requires !Blank(w) && 0 < n <= |Body(hash, at)|
    ensures Held(w + Body(hash, at)[..n]) == {}
  {
    BodyEnds(hash, at);
    var m := TrimmedBody(w, Body(hash, at), n);
    TrimLeftOf(w, "");
    GluedIsUnreadable(TrimLeft(w), hash, at, m);
  }

  /** What `Add` writes for a plain hash is read back whole, and neither cut nor glued to anything
      but blanks. */
  lemma WrittenRecordsFit(hash: string, at: int)
    requires hash != "" && Plain(hash)
    ensures Fit(Held, Record(hash, Body(hash, at)))
  {
    var body := Body(hash, at);
    BodyEnds(hash, at);
    BodyHasNoNewline(hash, at);
    forall w | Blank(w) ensures Held(w) == {} && Held(w + body) == {hash} {
      NothingInBlanks(w);
      HeldAfterBlanks(hash, at, w);
    }
    forall w, n | Blank(w) && 0 <= n < |body| ensures Held(w + body[..n]) == {} {
      HeldCut(hash, at, w, n);
    }
    forall w, n | !Blank(w) && 0 < n <= |body| ensures Held(w + body[..n]) == {} {
      HeldGlued(hash, at, w, n);
    }
  }
}
