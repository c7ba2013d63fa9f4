/** Free-text fields: control characters dropped, then cut at a character boundary. */
module Sanitize {
  import opened Utf8

  predicate IsControl(r: int) {
    r != 0x09 && (r < 0x20 || r == 0x7F)
  }

  predicate Clean(s: seq<Byte>) {
    forall i :: 0 <= i < |s| ==> !IsControl(s[i])
  }

  function Printable(rs: seq<Rune>): (k: seq<Rune>)
    ensures forall i :: 0 <= i < |k| ==> !IsControl(k[i])
  {
    if rs == [] then []
    else if IsControl(rs[0]) then Printable(rs[1..])
    else [rs[0]] + Printable(rs[1..])
  }

  /** How many of the characters fit, for any encoding. */
  function FittingBy(encode: Encoder, rs: seq<Rune>, room: nat): (n: nat)
    ensures n <= |rs|
  {
    if rs == [] || |encode(rs[0])| > room then 0
    else 1 + FittingBy(encode, rs[1..], room - |encode(rs[0])|)
  }

  function Fitting(rs: seq<Rune>, room: nat): (n: nat)
    ensures n <= |rs|
  {
    FittingBy(Encode, rs, room)
  }

  /** The encoding of the printable characters that fit. */
  function CutBy(encode: Encoder, rs: seq<Rune>, room: nat): seq<Byte> {
    var kept := Printable(rs);
    EncodeAllBy(encode, kept[..FittingBy(encode, kept, room)])
  }

  /** What the slow path computes. */
  function Cut(s: seq<Byte>, maxBytes: nat): seq<Byte> {
    CutBy(Encode, Runes(s), maxBytes)
  }

  /** `Fitting` is the longest prefix that fits. */
  lemma {:induction false} FittingIsLongest(rs: seq<Rune>, room: nat, n: nat)
    requires n <= |rs|
    ensures |EncodeAll(rs[..n])| <= room <==> n <= Fitting(rs, room)
  {
    if n > 0 {
      assert rs[..n][1..] == rs[1..][..n - 1];
      assert rs[..n][0] == rs[0];
      if |Encode(rs[0])| <= room {
        FittingIsLongest(rs[1..], room - |Encode(rs[0])|, n - 1);
      }
    }
  }

  lemma EncodeClean(r: Rune)
    ensures Clean(Encode(r)) <==> !IsControl(r)
  {
    if r < 0x80 {
      assert Encode(r)[0] == r;
    }
  }

  lemma {:induction false} EncodeAllClean(rs: seq<Rune>)
    ensures Clean(EncodeAll(rs)) <==> forall i :: 0 <= i < |rs| ==> !IsControl(rs[i])
  {
    if rs != [] {
      var a, b, rest := Encode(rs[0]), EncodeAll(rs[1..]), rs[1..];
      EncodeClean(rs[0]);
      EncodeAllClean(rest);
      assert forall i :: 0 <= i < |rest| ==> rest[i] == rs[i + 1];
      assert forall i :: 0 < i < |rs| ==> rs[i] == rest[i - 1];
      CleanBoth(a, b);
    }
  }

  lemma CleanBoth(a: seq<Byte>, b: seq<Byte>)
    ensures Clean(a + b) <==> Clean(a) && Clean(b)
  {
    if Clean(a + b) {
      assert forall i :: 0 <= i < |a| ==> a[i] == (a + b)[i];
      assert forall i :: 0 <= i < |b| ==> b[i] == (a + b)[|a| + i];
    }
  }

  lemma {:induction false} PrintableAll(rs: seq<Rune>)
    requires forall i :: 0 <= i < |rs| ==> !IsControl(rs[i])
    ensures Printable(rs) == rs
  {
    if rs != [] {
      PrintableAll(rs[1..]);
    }
  }

  /** For every byte string the slow path's result is valid, clean and within bounds. */
  lemma CutIsSound(s: seq<Byte>, maxBytes: nat)
    ensures |Cut(s, maxBytes)| <= maxBytes && Clean(Cut(s, maxBytes)) && Valid(Cut(s, maxBytes))
  {
    var rs := Printable(Runes(s));
    var n := Fitting(rs, maxBytes);
    FittingIsLongest(rs, maxBytes, n);
    EncodeAllClean(rs[..n]);
    RunesEncode(rs[..n]);
  }

  /** The fast path agrees with the slow one on valid input. */
  lemma FastIsSlow(s: seq<Byte>, maxBytes: nat)
    requires Valid(s) && |s| <= maxBytes && Clean(s)
    ensures Cut(s, maxBytes) == s
  {
    EncodeRunes(s);
    AllFit(Runes(s), maxBytes);
  }

  lemma AllFit(rs: seq<Rune>, maxBytes: nat)
    requires |EncodeAll(rs)| <= maxBytes && Clean(EncodeAll(rs))
    ensures Printable(rs) == rs && rs[..Fitting(rs, maxBytes)] == rs
  {
    EncodeAllClean(rs);
    PrintableAll(rs);
    assert rs[..|rs|] == rs;
    FittingIsLongest(rs, maxBytes, |rs|);
  }

  /** And only there: a stray byte that the fast path keeps becomes U+FFFD in the slow one. */
  lemma FastDiffersOnInvalidInput(s: seq<Byte>, maxBytes: nat)
    requires !Valid(s)
    ensures Cut(s, maxBytes) != s
  {
    CutIsSound(s, maxBytes);
  }

  function Sanitized(s: seq<Byte>, maxBytes: nat): seq<Byte> {
    if |s| <= maxBytes && Clean(s) then s else Cut(s, maxBytes)
  }

  /** Sanitizing twice is sanitizing once, on every byte string. */
  lemma Idempotent(s: seq<Byte>, maxBytes: nat)
    ensures Sanitized(Sanitized(s, maxBytes), maxBytes) == Sanitized(s, maxBytes)
    ensures |Sanitized(s, maxBytes)| <= maxBytes && Clean(Sanitized(s, maxBytes))
  {
    CutIsSound(s, maxBytes);
  }

  /** On valid input the result is the encoding of the longest fitting prefix of the characters
      that are no control characters: a longer prefix would not fit. */
  lemma LongestPrefixOnValidInput(s: seq<Byte>, maxBytes: nat, n: nat)
    requires Valid(s) && n <= |Printable(Runes(s))|
    ensures var rs := Printable(Runes(s));
      var k := Fitting(rs, maxBytes);
      Sanitized(s, maxBytes) == EncodeAll(rs[..k]) && (|EncodeAll(rs[..n])| <= maxBytes <==> n <= k)
  {
    if |s| <= maxBytes && Clean(s) {
      FastIsSlow(s, maxBytes);
    }
    FittingIsLongest(Printable(Runes(s)), maxBytes, n);
  }

  method HasControlChar(s: seq<Byte>) returns (found: bool)
    ensures found <==> !Clean(s)
  {
    for i := 0 to |s|
      invariant forall j :: 0 <= j < i ==> !IsControl(s[j])
    {
      var c := s[i];
      if c < 0x20 && c != 0x09 {
        return true;
      }
      if c == 0x7F {
        return true;
      }
    }
    found := false;
  }

  method SanitizeFree(s: seq<Byte>, maxBytes: nat) returns (r: seq<Byte>)
    ensures r == Sanitized(s, maxBytes)
  {
    if s == [] {
      return s;
    }
    if |s| <= maxBytes {
      var dirty := HasControlChar(s);
      if !dirty {
        return s;
      }
    }
    r := SanitizeSlowly(Encode, s, maxBytes);
  }

  /** The loop of `SanitizeFree`, which does not depend on how characters are encoded. */
  method SanitizeSlowly(encode: Encoder, s: seq<Byte>, maxBytes: nat) returns (r: seq<Byte>)
    ensures r == CutBy(encode, Runes(s), maxBytes)
  {
    r := [];
    var i := 0;
    ghost var all := Runes(s);
    ghost var todo := all;
    Begin(encode, all, maxBytes);
    AtTheStart(s);
    while i < |s|
      invariant i <= |s| && Ahead(s, i, todo) && SoFar(encode, all, todo, r, maxBytes)
    {
      var c, step := Next(s, i, todo);
      Advance(encode, all, todo, c, r, maxBytes);
      todo := todo[1..];
      i := i + step;
      if IsControl(c) {
        continue;
      }
      if |r| + |encode(c)| > maxBytes {
        return r;
      }
      r := r + encode(c);
    }
    AtTheEnd(s, todo);
    End(encode, all, r, maxBytes);
  }

  /** The result so far, completed with the cut of the characters left, is the cut of the whole. */
  ghost predicate SoFar(encode: Encoder, all: seq<Rune>, todo: seq<Rune>, r: seq<Byte>, maxBytes: nat) {
    |r| <= maxBytes && CutBy(encode, all, maxBytes) == r + CutBy(encode, todo, maxBytes - |r|)
  }

  lemma Begin(encode: Encoder, all: seq<Rune>, maxBytes: nat)
    ensures SoFar(encode, all, all, [], maxBytes)
  {
  }

  lemma End(encode: Encoder, all: seq<Rune>, r: seq<Byte>, maxBytes: nat)
    requires SoFar(encode, all, [], r, maxBytes)
    ensures CutBy(encode, all, maxBytes) == r
  {
    Assoc(r, [], []);
  }

  lemma Advance(encode: Encoder, all: seq<Rune>, todo: seq<Rune>, c: Rune, r: seq<Byte>, maxBytes: nat)
    requires todo != [] && todo[0] == c && SoFar(encode, all, todo, r, maxBytes)
    ensures IsControl(c) ==> SoFar(encode, all, todo[1..], r, maxBytes)
    ensures !IsControl(c) && |r| + |encode(c)| > maxBytes ==> CutBy(encode, all, maxBytes) == r
    ensures !IsControl(c) && |r| + |encode(c)| <= maxBytes ==> SoFar(encode, all, todo[1..], r + encode(c), maxBytes)
  {
    CutStep(encode, todo, maxBytes - |r|);
    Assoc(r, [], []);
    if |r| + |encode(c)| <= maxBytes {
      Assoc(r, encode(c), CutBy(encode, todo[1..], maxBytes - |r| - |encode(c)|));
    }
  }

  lemma CutStep(encode: Encoder, rs: seq<Rune>, room: nat)
    requires rs != []
    ensures IsControl(rs[0]) ==> CutBy(encode, rs, room) == CutBy(encode, rs[1..], room)
    ensures !IsControl(rs[0]) && |encode(rs[0])| > room ==> CutBy(encode, rs, room) == []
    ensures !IsControl(rs[0]) && |encode(rs[0])| <= room ==>
      CutBy(encode, rs, room) == encode(rs[0]) + CutBy(encode, rs[1..], room - |encode(rs[0])|)
  {
    if !IsControl(rs[0]) {
      var kept, more := Printable(rs), Printable(rs[1..]);
      assert kept[1..] == more;
      if |encode(rs[0])| <= room {
        var n := FittingBy(encode, more, room - |encode(rs[0])|);
        assert kept[..1 + n][1..] == more[..n];
      }
    }
  }

  /** The characters that a `range` loop at byte i has still to visit. */
  ghost predicate Ahead(s: seq<Byte>, i: nat, todo: seq<Rune>) {
    i <= |s| && todo == Runes(s[i..])
  }

  lemma AtTheStart(s: seq<Byte>)
    ensures Ahead(s, 0, Runes(s))
  {
    assert s[0..] == s;
  }

  lemma AtTheEnd(s: seq<Byte>, todo: seq<Rune>)
    requires Ahead(s, |s|, todo)
    ensures todo == []
  {
    assert s[|s|..] == [];
  }

  /** What a `range` loop decodes next: a stray byte is taken alone. */
  method Next(s: seq<Byte>, i: nat, ghost todo: seq<Rune>) returns (c: Rune, step: nat)
    requires i < |s| && Ahead(s, i, todo)
    ensures 0 < step <= |s| - i
    ensures todo != [] && todo[0] == c && Ahead(s, i + step, todo[1..])
  {
    var rest := s[i..];
    step := Size(rest);
    c := REPLACEMENT;
    if step == 0 {
      step := 1;
    } else {
      c := Front(rest);
    }
    RunesStep(rest);
    Drop(s, i, step);
  }

  lemma RunesStep(s: seq<Byte>)
    requires s != []
    ensures Size(s) == 0 ==> Runes(s) == [REPLACEMENT] + Runes(s[1..])
    ensures Size(s) > 0 ==> Runes(s) == [Front(s)] + Runes(s[Size(s)..])
  {
  }

  lemma Drop(s: seq<Byte>, i: nat, n: nat)
    requires i + n <= |s|
    ensures s[i..][n..] == s[i + n..]
  {
  }

  lemma Assoc(a: seq<Byte>, b: seq<Byte>, c: seq<Byte>)
    ensures a + (b + c) == a + b + c && a + [] == a
  {
  }
}
