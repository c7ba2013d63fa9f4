/** The consented site set: clamped when the code is issued, carried through every rotation,
    and read back by the resource server. */
module Consent {
  import opened Basics
  import opened OAuthStore

  const SITE_LIMIT := 0x1_0000_0000

  predicate Decimal(s: string) {
    forall i :: 0 <= i < |s| ==> '0' <= s[i] <= '9'
  }

  predicate IsDigits(s: string) {
    s != "" && Decimal(s)
  }

  function DecimalValue(s: string): nat
    requires Decimal(s)
  {
    if s == "" then 0 else 10 * DecimalValue(s[..|s| - 1]) + (s[|s| - 1] as nat - '0' as nat)
  }

  /** A posted id counts when it is decimal, fits 32 bits and is not zero. */
  predicate IsSiteId(s: string) {
    IsDigits(s) && 0 < DecimalValue(s) < SITE_LIMIT
  }

  function Parsed(raw: seq<string>): seq<Site> {
    if raw == [] then []
    else Parsed(raw[..|raw| - 1]) + if IsSiteId(raw[|raw| - 1]) then [DecimalValue(raw[|raw| - 1])] else []
  }

  function Kept(ids: seq<Site>, allowed: set<Site>): seq<Site> {
    if ids == [] then []
    else Kept(ids[..|ids| - 1], allowed) + if ids[|ids| - 1] in allowed then [ids[|ids| - 1]] else []
  }

  /** The sites a user may grant: those held that the deployment ceiling lists. */
  function Consentable(grants: map<Site, Role>, ceiling: seq<Site>): set<Site> {
    set s <- grants | s in ceiling
  }

  function Clamped(raw: seq<string>, grants: map<Site, Role>, ceiling: seq<Site>): seq<Site> {
    Kept(Parsed(raw), Consentable(grants, ceiling))
  }

  /** A site id as it is posted. */
  function Printed(n: nat): (s: string)
    ensures IsDigits(s)
  {
    if n < 10 then [('0' as int + n) as char] else Printed(n / 10) + [('0' as int + n % 10) as char]
  }

  /** Round trip: a printed number reads as itself, and is a site id exactly from 1 to the largest
      32-bit number. */
  lemma {:induction false} PrintedReadsBack(n: nat)
    ensures DecimalValue(Printed(n)) == n
    ensures IsSiteId(Printed(n)) <==> 1 <= n <= 4_294_967_295
  {
    if n >= 10 {
      PrintedReadsBack(n / 10);
      assert Printed(n)[..|Printed(n)| - 1] == Printed(n / 10);
    }
  }

  /** The clamp keeps exactly the posted ids that the user holds and the ceiling lists. */
  lemma {:induction false} KeptExactly(ids: seq<Site>, allowed: set<Site>, s: Site)
    ensures s in Kept(ids, allowed) <==> s in ids && s in allowed
  {
    if ids != [] {
      KeptExactly(ids[..|ids| - 1], allowed, s);
      assert ids == ids[..|ids| - 1] + [ids[|ids| - 1]];
    }
  }

  lemma {:induction false} ParsedExactly(raw: seq<string>, s: Site)
    ensures s in Parsed(raw) <==> exists r <- raw :: IsSiteId(r) && DecimalValue(r) == s
  {
    if raw != [] {
      ParsedExactly(raw[..|raw| - 1], s);
      assert raw == raw[..|raw| - 1] + [raw[|raw| - 1]];
    }
  }

  lemma ClampedExactly(raw: seq<string>, grants: map<Site, Role>, ceiling: seq<Site>, s: Site)
    ensures s in Clamped(raw, grants, ceiling) <==>
      s in grants && s in ceiling && exists r <- raw :: IsSiteId(r) && DecimalValue(r) == s
  {
    ParsedExactly(raw, s);
    KeptExactly(Parsed(raw), Consentable(grants, ceiling), s);
  }

  /** Parsing and clamping keep the posted order, repetitions included: they go through the posted
      values one by one. */
  lemma ClampGoesInOrder(a: seq<string>, b: seq<string>, grants: map<Site, Role>, ceiling: seq<Site>)
    ensures Clamped(a + b, grants, ceiling) == Clamped(a, grants, ceiling) + Clamped(b, grants, ceiling)
  {
    ParsedConcat(a, b);
    KeptConcat(Parsed(a), Parsed(b), Consentable(grants, ceiling));
  }

  lemma {:induction false} ParsedConcat(a: seq<string>, b: seq<string>)
    ensures Parsed(a + b) == Parsed(a) + Parsed(b)
  {
    if b == [] {
      assert a + b == a;
    } else {
      assert (a + b)[..|a + b| - 1] == a + b[..|b| - 1];
      ParsedConcat(a, b[..|b| - 1]);
    }
  }

  lemma {:induction false} KeptConcat(a: seq<Site>, b: seq<Site>, allowed: set<Site>)
    ensures Kept(a + b, allowed) == Kept(a, allowed) + Kept(b, allowed)
  {
    if b == [] {
      assert a + b == a;
    } else {
      assert (a + b)[..|a + b| - 1] == a + b[..|b| - 1];
      KeptConcat(a, b[..|b| - 1], allowed);
    }
  }

  method InCeiling(ceiling: seq<Site>, site: Site) returns (found: bool)
    ensures found <==> site in ceiling
  {
    for i := 0 to |ceiling|
      invariant site !in ceiling[..i]
    {
      if ceiling[i] == site {
        return true;
      }
    }
    found := false;
  }

  method ConsentableSites(grants: map<Site, Role>, ceiling: seq<Site>) returns (out: seq<Site>)
    ensures (set s <- out) == Consentable(grants, ceiling)
    ensures forall i, j :: 0 <= i < j < |out| ==> out[i] != out[j]
  {
    out := [];
    var left := grants.Keys;
    while left != {}
      invariant left <= grants.Keys
      invariant forall x :: x in out <==> x in grants && x !in left && x in ceiling
      invariant forall i, j :: 0 <= i < j < |out| ==> out[i] != out[j]
    {
      var s :| s in left;
      var inside := InCeiling(ceiling, s);
      left := left - {s};
      if inside {
        out := out + [s];
      }
    }
  }

  /** strconv.ParseUint in base 10 at 32 bits. */
  method ParseUint32(s: string) returns (ok: bool, n: nat)
    ensures ok <==> IsDigits(s) && DecimalValue(s) < SITE_LIMIT
    ensures ok ==> n == DecimalValue(s)
  {
    ok, n := false, 0;
    if |s| == 0 {
      return;
    }
    for i := 0 to |s|
      invariant Decimal(s[..i])
      invariant n == DecimalValue(s[..i]) < SITE_LIMIT
    {
      assert s[..i + 1][..i] == s[..i];
      if s[i] < '0' || s[i] > '9' {
        return false, 0;
      }
      assert Decimal(s[..i + 1]);
      n := 10 * n + (s[i] as nat - '0' as nat);
      if n >= SITE_LIMIT {
        TooLarge(s, i + 1);
        return false, 0;
      }
    }
    assert s[..|s|] == s;
    ok := true;
  }

  lemma {:induction false} TooLarge(s: string, n: nat)
    requires n <= |s| && Decimal(s[..n]) && DecimalValue(s[..n]) >= SITE_LIMIT
    ensures IsDigits(s) ==> DecimalValue(s) >= SITE_LIMIT
    decreases |s| - n
  {
    if n == |s| {
      assert s[..n] == s;
    } else if IsDigits(s) {
      assert s[..n + 1][..n] == s[..n];
      assert Decimal(s[..n + 1]);
      TooLarge(s, n + 1);
    }
  }

  method ParseSiteIds(raw: seq<string>) returns (out: seq<Site>)
    ensures out == Parsed(raw)
  {
    out := [];
    for i := 0 to |raw|
      invariant out == Parsed(raw[..i])
    {
      assert raw[..i + 1][..i] == raw[..i];
      var ok, n := ParseUint32(raw[i]);
      if ok && n != 0 {
        out := out + [n];
      }
    }
    assert raw[..|raw|] == raw;
  }

  /** The clamp of the consent handler. */
  method ClampSites(raw: seq<string>, grants: map<Site, Role>, ceiling: seq<Site>) returns (sites: seq<Site>)
    ensures sites == Clamped(raw, grants, ceiling)
  {
    var allowed := ConsentableSites(grants, ceiling);
    var consentable := set s <- allowed;
    assert consentable == Consentable(grants, ceiling);
    var ids := ParseSiteIds(raw);
    sites := [];
    for i := 0 to |ids|
      invariant sites == Kept(ids[..i], consentable)
    {
      assert ids[..i + 1][..i] == ids[..i];
      if ids[i] in consentable {
        sites := sites + [ids[i]];
      }
    }
    assert ids[..|ids|] == ids;
  }

  datatype SiteClaim = Absent | Sites(ids: seq<Site>)

  function CeilingMap(ceiling: seq<Site>): map<Site, Role> {
    map s <- ceiling :: Api
  }

  /** The resource server's grants for one token. */
  method GrantsForToken(claim: SiteClaim, ceiling: map<Site, Role>) returns (grants: map<Site, Role>)
    ensures claim.Absent? ==> grants == ceiling
    ensures claim.Sites? ==> grants == GrantsOf(claim.ids, ceiling)
  {
    if claim.Absent? {
      return ceiling;
    }
    grants := map[];
    for i := 0 to |claim.ids|
      invariant grants == GrantsOf(claim.ids[..i], ceiling)
    {
      var id := claim.ids[i];
      if id in ceiling {
        grants := grants[id := ceiling[id]];
      }
    }
    assert claim.ids[..|claim.ids|] == claim.ids;
  }

  function GrantsOf(ids: seq<Site>, ceiling: map<Site, Role>): map<Site, Role> {
    map s <- ids | s in ceiling :: ceiling[s]
  }
}
