/** UTF-8 as RFC 3629 section 3 defines it, and decoding as a `range` over a string does it:
    a byte that starts no character counts as U+FFFD. */
module Utf8 {
  type Byte = x: int | 0 <= x < 256
  type Rune = r: int | 0 <= r < 0xD800 || 0xE000 <= r < 0x110000

  const REPLACEMENT: Rune := 0xFFFD

  function Encode(r: Rune): (s: seq<Byte>)
    ensures 1 <= |s| <= 4
  {
    if r < 0x80 then [r]
    else if r < 0x800 then [0xC0 + r / 64, 0x80 + r % 64]
    else if r < 0x10000 then [0xE0 + r / 4096, 0x80 + r / 64 % 64, 0x80 + r % 64]
    else [0xF0 + r / 262144, 0x80 + r / 4096 % 64, 0x80 + r / 64 % 64, 0x80 + r % 64]
  }

  predicate Tail(b: Byte) {
    0x80 <= b < 0xC0
  }

  /** How many bytes the character at the front has, by the byte ranges of RFC 3629 section 4;
      0 if there is none. */
  function Size(s: seq<Byte>): (n: nat)
    ensures n <= 4 && n <= |s|
  {
    if s == [] then 0
    else if s[0] < 0x80 then 1
    else if 0xC2 <= s[0] < 0xE0 then
      if |s| >= 2 && Tail(s[1]) then 2 else 0
    else if 0xE0 <= s[0] < 0xF0 then
      if |s| >= 3 && Tail(s[1]) && Tail(s[2]) && (s[0] == 0xE0 ==> s[1] >= 0xA0) &&
        (s[0] == 0xED ==> s[1] < 0xA0) then 3 else 0
    else if 0xF0 <= s[0] < 0xF5 then
      if |s| >= 4 && Tail(s[1]) && Tail(s[2]) && Tail(s[3]) && (s[0] == 0xF0 ==> s[1] >= 0x90) &&
        (s[0] == 0xF4 ==> s[1] < 0x90) then 4 else 0
    else 0
  }

  /** The six bits a continuation byte carries. */
  function Low(b: int): int {
    b - 0x80
  }

  /** The character at the front. */
  function Front(s: seq<Byte>): Rune
    requires Size(s) > 0
  {
    var a: int := s[0];
    match Size(s)
    case 1 => a
    case 2 => (a - 0xC0) * 64 + Low(s[1])
    case 3 => (a - 0xE0) * 4096 + Low(s[1]) * 64 + Low(s[2])
    case _ => (a - 0xF0) * 262144 + Low(s[1]) * 4096 + Low(s[2]) * 64 + Low(s[3])
  }

  /** Round trip: what encoding a character gives is decoded to it, whatever follows. */
  lemma DecodeEncode(r: Rune, rest: seq<Byte>)
    ensures Size(Encode(r) + rest) == |Encode(r)| && Front(Encode(r) + rest) == r
  {
    var e, s := Encode(r), Encode(r) + rest;
    assert s[0] == e[0] && (|e| > 1 ==> s[1] == e[1]) && (|e| > 2 ==> s[2] == e[2]) && (|e| > 3 ==> s[3] == e[3]);
    if 0x800 <= r < 0x10000 {
      Sixths(r);
      Decode3(r, s);
    } else if r >= 0x10000 {
      Sixths(r);
      Sixths(r / 64);
      Decode4(r, s);
    }
  }

  lemma Sixths(r: nat)
    ensures r / 4096 == r / 64 / 64 && r / 262144 == r / 4096 / 64
    ensures r == r / 4096 * 4096 + r / 64 % 64 * 64 + r % 64
  {}

  lemma Decode3(r: Rune, s: seq<Byte>)
    requires 0x800 <= r < 0x10000 && r == r / 4096 * 4096 + r / 64 % 64 * 64 + r % 64
    requires |s| >= 3 && s[0] == 0xE0 + r / 4096 && s[1] == 0x80 + r / 64 % 64 && s[2] == 0x80 + r % 64
    ensures Size(s) == 3 && Front(s) == r
  {}

  lemma Decode4(r: Rune, s: seq<Byte>)
    requires 0x10000 <= r && r / 4096 == r / 64 / 64 && r / 262144 == r / 4096 / 64
    requires r / 64 == r / 64 / 4096 * 4096 + r / 64 / 64 % 64 * 64 + r / 64 % 64 && r / 64 / 4096 == r / 262144
    requires |s| >= 4 && s[0] == 0xF0 + r / 262144 && s[1] == 0x80 + r / 4096 % 64 && s[2] == 0x80 + r / 64 % 64 &&
      s[3] == 0x80 + r % 64
    ensures Size(s) == 4 && Front(s) == r
  {}

  /** And the other way: the bytes of a decoded character are its encoding, the only one. */
  lemma EncodeDecode(s: seq<Byte>)
    requires Size(s) > 0
    ensures Encode(Front(s)) == s[..Size(s)]
  {
    if Size(s) == 2 {
      var a: int := s[0];
      Digits(a - 0xC0, Low(s[1]));
    } else if Size(s) == 3 {
      Encode3(s);
    } else if Size(s) == 4 {
      Encode4(s);
    }
  }

  lemma Encode3(s: seq<Byte>)
    requires Size(s) == 3
    ensures Encode(Front(s)) == s[..3]
  {
    var r, a: int := Front(s), s[0];
    Digits((a - 0xE0) * 64 + Low(s[1]), Low(s[2]));
    Digits(a - 0xE0, Low(s[1]));
    assert r / 4096 == r / 64 / 64;
  }

  lemma Encode4(s: seq<Byte>)
    requires Size(s) == 4
    ensures Encode(Front(s)) == s[..4]
  {
    var r, a: int := Front(s), s[0];
    Digits(((a - 0xF0) * 64 + Low(s[1])) * 64 + Low(s[2]), Low(s[3]));
    Digits((a - 0xF0) * 64 + Low(s[1]), Low(s[2]));
    Digits(a - 0xF0, Low(s[1]));
    assert r / 4096 == r / 64 / 64 && r / 262144 == r / 64 / 64 / 64;
  }

  lemma Digits(q: nat, d: nat)
    requires d < 64
    ensures (q * 64 + d) / 64 == q && (q * 64 + d) % 64 == d
  {}

  type Encoder = Rune -> seq<Byte>

  function EncodeAllBy(encode: Encoder, rs: seq<Rune>): seq<Byte> {
    if rs == [] then [] else encode(rs[0]) + EncodeAllBy(encode, rs[1..])
  }

  function EncodeAll(rs: seq<Rune>): seq<Byte> {
    EncodeAllBy(Encode, rs)
  }

  /** The characters a `range` loop visits. */
  function Runes(s: seq<Byte>): seq<Rune> {
    if s == [] then []
    else if Size(s) == 0 then [REPLACEMENT] + Runes(s[1..])
    else [Front(s)] + Runes(s[Size(s)..])
  }

  predicate Valid(s: seq<Byte>) {
    s == [] || (Size(s) > 0 && Valid(s[Size(s)..]))
  }

  lemma {:induction false} RunesEncode(rs: seq<Rune>)
    ensures Valid(EncodeAll(rs)) && Runes(EncodeAll(rs)) == rs
  {
    if rs != [] {
      var s, rest := EncodeAll(rs), EncodeAll(rs[1..]);
      DecodeEncode(rs[0], rest);
      RunesEncode(rs[1..]);
      assert s[Size(s)..] == rest;
    }
  }

  lemma {:induction false} EncodeRunes(s: seq<Byte>)
    requires Valid(s)
    ensures EncodeAll(Runes(s)) == s
  {
    if s != [] {
      EncodeDecode(s);
      EncodeRunes(s[Size(s)..]);
      var rs := Runes(s);
      assert rs[1..] == Runes(s[Size(s)..]);
    }
  }
}
