/** Unanchored regular expressions, as far as the channel mapper uses them, and what its two
    expressions find. */
module Regex {
  datatype Re =
    | Empty
    | Begin
    | Any
    | Is(c: char)
    | NotIn(ranges: seq<(char, char)>)
    | Cat(left: Re, right: Re)
    | Or(one: Re, two: Re)
    | Star(inner: Re)

  predicate InRanges(ranges: seq<(char, char)>, c: char) {
    exists n :: 0 <= n < |ranges| && ranges[n].0 <= c <= ranges[n].1
  }

  /** The expression matches s[i..j] where it stands. A dot does not match a newline. */
  predicate Matches(re: Re, s: string, i: nat, j: nat)
    requires i <= j <= |s|
    decreases re, j - i
  {
    match re
    case Empty => i == j
    case Begin => i == j == 0
    case Any => j == i + 1 && s[i] != '\n'
    case Is(c) => j == i + 1 && s[i] == c
    case NotIn(ranges) => j == i + 1 && !InRanges(ranges, s[i])
    case Cat(l, r) => exists k: nat :: i <= k <= j && Matches(l, s, i, k) && Matches(r, s, k, j)
    case Or(one, two) => Matches(one, s, i, j) || Matches(two, s, i, j)
    case Star(inner) => i == j || exists k: nat :: i < k <= j && Matches(inner, s, i, k) && Matches(re, s, k, j)
  }

  /** The expression matches somewhere. */
  predicate Finds(re: Re, s: string) {
    exists i: nat, j: nat :: i <= j <= |s| && Matches(re, s, i, j)
  }

  /** w stands at i. */
  predicate Stands(s: string, w: string, i: nat) {
    i + |w| <= |s| && s[i..i + |w|] == w
  }

  predicate Contains(s: string, w: string) {
    exists i: nat :: i <= |s| && Stands(s, w, i)
  }

  predicate HasSuffix(s: string, w: string) {
    |w| <= |s| && s[|s| - |w|..] == w
  }

  lemma CatSplit(re: Re, s: string, i: nat, j: nat) returns (k: nat)
    requires re.Cat? && i <= j <= |s| && Matches(re, s, i, j)
    ensures i <= k <= j && Matches(re.left, s, i, k) && Matches(re.right, s, k, j)
  {
    k :| i <= k <= j && Matches(re.left, s, i, k) && Matches(re.right, s, k, j);
  }

  lemma OrMatches(one: Re, two: Re, s: string, i: nat, j: nat)
    requires i <= j <= |s|
    ensures Matches(Or(one, two), s, i, j) <==> Matches(one, s, i, j) || Matches(two, s, i, j)
  {}

  function Word(w: string): Re {
    if w == "" then Empty else Cat(Is(w[0]), Word(w[1..]))
  }

  lemma {:induction false} WordMatches(w: string, s: string, i: nat, j: nat)
    requires i <= j <= |s|
    ensures Matches(Word(w), s, i, j) <==> j == i + |w| && Stands(s, w, i)
  {
    if w != "" {
      var rest := w[1..];
      forall k: nat | i <= k <= j ensures Matches(Word(rest), s, k, j) <==> j == k + |rest| && Stands(s, rest, k) {
        WordMatches(rest, s, k, j);
      }
      if j == i + |w| && Stands(s, w, i) {
        assert s[i..j][0] == s[i] && s[i..j][1..] == s[i + 1..j];
        assert Matches(Is(w[0]), s, i, i + 1) && Matches(Word(rest), s, i + 1, j);
      }
      if Matches(Word(w), s, i, j) {
        var k := CatSplit(Word(w), s, i, j);
        assert k == i + 1 && s[i] == w[0];
        assert s[i..j] == [s[i]] + s[i + 1..j];
      }
    }
  }

  /** A word, anything after it, anywhere: the word is contained. */
  lemma FindsWord(w: string, s: string)
    ensures Finds(Word(w), s) <==> Contains(s, w)
    ensures Finds(Cat(Word(w), Star(Any)), s) <==> Contains(s, w)
  {
    if Contains(s, w) {
      var i: nat :| i <= |s| && Stands(s, w, i);
      var j := i + |w|;
      WordMatches(w, s, i, j);
      assert Matches(Star(Any), s, j, j);
      assert Matches(Cat(Word(w), Star(Any)), s, i, j);
    }
    if Finds(Word(w), s) {
      var i: nat, j: nat :| i <= j <= |s| && Matches(Word(w), s, i, j);
      WordMatches(w, s, i, j);
    }
    if Finds(Cat(Word(w), Star(Any)), s) {
      var i: nat, j: nat :| i <= j <= |s| && Matches(Cat(Word(w), Star(Any)), s, i, j);
      var k := CatSplit(Cat(Word(w), Star(Any)), s, i, j);
      WordMatches(w, s, i, k);
    }
  }

  lemma FindsOr(a: Re, b: Re, s: string)
    ensures Finds(Or(a, b), s) <==> Finds(a, s) || Finds(b, s)
  {
    forall i: nat, j: nat | i <= j <= |s|
      ensures Matches(Or(a, b), s, i, j) <==> Matches(a, s, i, j) || Matches(b, s, i, j)
    {
      OrMatches(a, b, s, i, j);
    }
  }

  /** `cp.*|ppc|retargeting|paid.*` */
  const PAID: Re := Or(Cat(Word("cp"), Star(Any)),
    Or(Word("ppc"), Or(Word("retargeting"), Cat(Word("paid"), Star(Any)))))

  predicate PaidMedium(s: string) {
    Contains(s, "cp") || Contains(s, "ppc") || Contains(s, "retargeting") || Contains(s, "paid")
  }

  /** The paid expression is a plain test for four substrings: its stars add nothing. */
  lemma PaidFindsSubstrings(s: string)
    ensures Finds(PAID, s) <==> PaidMedium(s)
  {
    FindsOr(Cat(Word("cp"), Star(Any)), Or(Word("ppc"), Or(Word("retargeting"), Cat(Word("paid"), Star(Any)))), s);
    FindsOr(Word("ppc"), Or(Word("retargeting"), Cat(Word("paid"), Star(Any))), s);
    FindsOr(Word("retargeting"), Cat(Word("paid"), Star(Any)), s);
    FindsWord("cp", s);
    FindsWord("ppc", s);
    FindsWord("retargeting", s);
    FindsWord("paid", s);
  }

  /** `(^|[^a-df-z])shop|shopping` */
  const BOUNDARY: Re := Or(Begin, NotIn([('a', 'd'), ('f', 'z')]))
  const SHOPPING: Re := Or(Cat(BOUNDARY, Word("shop")), Word("shopping"))

  /** A lower-case letter other than e, which the expression lets stand before the word. */
  predicate Blocks(c: char) {
    'a' <= c <= 'z' && c != 'e'
  }

  /** "shop" stands somewhere without a letter other than e before it. */
  predicate FreeShop(s: string) {
    exists i: nat :: i <= |s| && Stands(s, "shop", i) && (i == 0 || !Blocks(s[i - 1]))
  }

  lemma BoundaryMatches(s: string, i: nat, j: nat)
    requires i <= j <= |s|
    ensures Matches(BOUNDARY, s, i, j) <==> (i == j == 0) || (j == i + 1 && !Blocks(s[i]))
  {
    var ranges := [('a', 'd'), ('f', 'z')];
    if i < |s| {
      var c := s[i];
      if Blocks(c) {
        assert ranges[if c <= 'd' then 0 else 1].0 <= c <= ranges[if c <= 'd' then 0 else 1].1;
      }
      assert InRanges(ranges, c) <==> Blocks(c);
    }
  }

  /** The shopping expression, in words: "workshop" is not a shop, "eshop" and "workshopping"
      are. */
  lemma ShoppingFinds(s: string)
    ensures Finds(SHOPPING, s) <==> Contains(s, "shopping") || FreeShop(s)
  {
    var free := Cat(BOUNDARY, Word("shop"));
    FindsOr(free, Word("shopping"), s);
    FindsWord("shopping", s);
    if FreeShop(s) {
      var i: nat :| i <= |s| && Stands(s, "shop", i) && (i == 0 || !Blocks(s[i - 1]));
      var from := if i == 0 then 0 else i - 1;
      BoundaryMatches(s, from, i);
      WordMatches("shop", s, i, i + 4);
      assert Matches(free, s, from, i + 4);
    }
    if Finds(free, s) {
      var i: nat, j: nat :| i <= j <= |s| && Matches(free, s, i, j);
      var k := CatSplit(free, s, i, j);
      BoundaryMatches(s, i, k);
      WordMatches("shop", s, k, j);
    }
  }
}
