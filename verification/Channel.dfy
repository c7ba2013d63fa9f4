/** The attribution ladder: fifteen steps over one mutable context, the first that matches wins. */
module Channel {
  import opened Basics
  import opened Regex

  /** The loaded source database. Names and domains are lower-cased at load time. */
  datatype Database = Database(exact: map<string, string>, suffixes: seq<(string, string)>,
                               search: set<string>, social: set<string>, video: set<string>, shop: set<string>,
                               email: set<string>, ai: set<string>, referral: set<string>)

  /** What the ladder looks at, after normalization. */
  datatype Facts = Facts(db: Database, referrer: string, name: string, source: string, medium: string,
    campaign: string, clickID: string)

  const DISPLAY: set<string> := {"display", "banner", "expandable", "interstitial", "cpm"}
  const SOCIAL: set<string> := {"social", "social-network", "social-media", "sm", "social network", "social media"}
  const EMAIL: set<string> := {"email", "e-mail", "e_mail", "e mail", "gmail"}
  const REFERRAL: set<string> := {"referral", "app", "link"}
  const PUSH: set<string> := {"firebase"}

  predicate InSet(s: set<string>, key: string) {
    key != "" && key in s
  }

  predicate Shopping(f: Facts) {
    InSet(f.db.shop, f.referrer) || Contains(f.campaign, "shopping") || FreeShop(f.campaign)
  }

  const RULES: nat := 18

  /** The labels in order of precedence. */
  function Label(rule: nat): string {
    match rule
    case 0 => "Cross-network"
    case 1 => "Paid Shopping"
    case 2 => "Paid Search"
    case 3 => "Paid Social"
    case 4 => "Paid Video"
    case 5 => "Display"
    case 6 => "Paid Other"
    case 7 => "Organic Shopping"
    case 8 => "Organic Social"
    case 9 => "Organic Video"
    case 10 => "Organic Search"
    case 11 => "Referral"
    case 12 => "Email"
    case 13 => "Affiliates"
    case 14 => "Audio"
    case 15 => "SMS"
    case 16 => "Mobile Push Notifications"
    case _ => "AI"
  }

  /** When a label applies, taken by itself. */
  predicate Applies(rule: nat, f: Facts) {
    match rule
    case 0 => Contains(f.campaign, "cross-network")
    case 1 => Shopping(f) && PaidMedium(f.medium)
    case 2 => (InSet(f.db.search, f.referrer) && PaidMedium(f.medium))
      || (f.name == "google" && f.clickID == "(gclid)") || (f.name == "bing" && f.clickID == "(msclkid)")
    case 3 => InSet(f.db.social, f.referrer) && PaidMedium(f.medium)
    case 4 => InSet(f.db.video, f.referrer) && PaidMedium(f.medium)
    case 5 => f.medium in DISPLAY
    case 6 => PaidMedium(f.medium)
    case 7 => Shopping(f)
    case 8 => InSet(f.db.social, f.referrer) || f.medium in SOCIAL
    case 9 => InSet(f.db.video, f.referrer) || Contains(f.medium, "video")
    case 10 => InSet(f.db.search, f.referrer) || f.medium == "organic"
    case 11 => f.medium in REFERRAL || InSet(f.db.referral, f.referrer)
    case 12 => f.referrer in EMAIL || f.source in EMAIL || f.medium in EMAIL || InSet(f.db.email, f.referrer)
    case 13 => f.medium == "affiliate"
    case 14 => f.medium == "audio"
    case 15 => f.referrer == "sms" || f.source == "sms" || f.medium == "sms"
    case 16 => HasSuffix(f.medium, "push") || Contains(f.medium, "mobile") || Contains(f.medium, "notification")
      || f.referrer in PUSH || f.source in PUSH
    case 17 => InSet(f.db.ai, f.referrer) || f.source in f.db.ai
    case _ => false
  }

  /** The first label from n on that applies, or the length of the ladder. */
  function First(f: Facts, n: nat): nat
    requires n <= RULES
    decreases RULES - n
  {
    if n == RULES || Applies(n, f) then n else First(f, n + 1)
  }

  /** The channel as a pure priority choice. */
  function ChannelOf(f: Facts): string {
    var n := First(f, 0);
    if n < RULES then Label(n) else "Direct"
  }

  ghost predicate NoneBelow(f: Facts, from: nat, n: nat) {
    forall m :: from <= m < n ==> !Applies(m, f)
  }

  lemma {:induction false} FirstIs(f: Facts, from: nat, n: nat)
    requires from <= n <= RULES && NoneBelow(f, from, n) && (n < RULES ==> Applies(n, f))
    ensures First(f, from) == n
    decreases n - from
  {
    if from < n {
      FirstIs(f, from + 1, n);
    }
  }

  lemma {:induction false} FirstApplies(f: Facts, from: nat)
    requires from <= RULES
    ensures from <= First(f, from) <= RULES && NoneBelow(f, from, First(f, from))
    ensures First(f, from) < RULES ==> Applies(First(f, from), f)
    decreases RULES - from
  {
    if from < RULES && !Applies(from, f) {
      FirstApplies(f, from + 1);
    }
  }

  lemma LabelsAreDistinct(m: nat, n: nat)
    requires m < RULES && n < RULES && Label(m) == Label(n)
    ensures m == n
  {
    assert Label(1)[6] == 'h' && Label(2)[6] == 'e' && Label(3)[6] == 'o';
    assert Label(8)[9] == 'o' && Label(10)[9] == 'e' && Label(7)[9] == 'h';
  }

  /** A label is given exactly when it applies and nothing of higher precedence does. */
  lemma GivenExactlyWhenFirst(f: Facts, n: nat)
    requires n < RULES
    ensures ChannelOf(f) == Label(n) <==> Applies(n, f) && NoneBelow(f, 0, n)
  {
    FirstApplies(f, 0);
    if Applies(n, f) && NoneBelow(f, 0, n) {
      FirstIs(f, 0, n);
    }
    if ChannelOf(f) == Label(n) && First(f, 0) < RULES {
      LabelsAreDistinct(n, First(f, 0));
    }
  }

  /** Cross-network wins over everything: the token in the campaign is all it takes, and nothing
      else gives it. */
  lemma CrossNetworkExactly(f: Facts)
    ensures ChannelOf(f) == "Cross-network" <==> Contains(f.campaign, "cross-network")
  {
    GivenExactlyWhenFirst(f, 0);
  }

  /** Every label past the eighth step, Direct among them, means the medium names no paid traffic:
      paid traffic is never reported as organic. */
  lemma BelowStepEightIsUnpaid(f: Facts)
    requires ChannelOf(f) !in {"Cross-network", "Paid Shopping", "Paid Search", "Paid Social", "Paid Video",
      "Display", "Paid Other"}
    ensures !Contains(f.medium, "cp") && !Contains(f.medium, "ppc") && !Contains(f.medium, "retargeting") &&
      !Contains(f.medium, "paid")
  {
    FirstApplies(f, 0);
    var n := First(f, 0);
    assert n > 6;
    assert !Applies(6, f);
  }

  /** And the paid labels are given to paid traffic only, but for searches with a click id. */
  lemma PaidLabelsArePaid(f: Facts)
    requires ChannelOf(f) in {"Paid Shopping", "Paid Search", "Paid Social", "Paid Video", "Paid Other"}
    ensures PaidMedium(f.medium) || (f.name == "google" && f.clickID == "(gclid)") ||
      (f.name == "bing" && f.clickID == "(msclkid)")
  {
    GivenExactlyWhenFirst(f, 1);
    GivenExactlyWhenFirst(f, 2);
    GivenExactlyWhenFirst(f, 3);
    GivenExactlyWhenFirst(f, 4);
    GivenExactlyWhenFirst(f, 6);
  }

  /** The string functions of the standard library and the host parser, which this model takes as
      they are. */
  datatype Strings = Strings(lower: string -> string, trim: string -> string, host: string -> string)

  /** What a caller passes in. */
  datatype Visit = Visit(referrer: string, source: string, medium: string, campaign: string, clickID: string)

  /** The i-th suffix is the first that the host ends in. */
  predicate FirstSuffix(suffixes: seq<(string, string)>, host: string, i: nat) {
    && i < |suffixes|
    && HasSuffix(host, suffixes[i].0)
    && forall j :: 0 <= j < i ==> !HasSuffix(host, suffixes[j].0)
  }

  /** A host's source name: that of its exact domain, else of the first listed suffix it ends
      in, else none. */
  ghost predicate Names(db: Database, host: string, name: string) {
    if host == "" then name == ""
    else if host in db.exact then name == db.exact[host]
    else
      || (exists i: nat :: FirstSuffix(db.suffixes, host, i) && name == db.suffixes[i].1)
      || (name == "" && forall i :: 0 <= i < |db.suffixes| ==> !HasSuffix(host, db.suffixes[i].0))
  }

  predicate WithoutWww(full: string, host: string) {
    (host == full && !("www." <= full)) || "www." + host == full
  }

  /** The host of a referrer without one leading "www.". */
  predicate IsHost(lib: Strings, referrer: string, host: string) {
    if referrer == "" then host == ""
    else WithoutWww(lib.host(referrer), host)
  }

  ghost predicate Describes(f: Facts, db: Database, lib: Strings, v: Visit) {
    && f.db == db
    && IsHost(lib, v.referrer, f.referrer)
    && Names(db, f.referrer, f.name)
    && f.source == lib.lower(lib.trim(v.source))
    && f.medium == lib.lower(lib.trim(v.medium))
    && f.campaign == lib.lower(lib.trim(v.campaign))
    && f.clickID == lib.trim(v.clickID)
  }

  /** The facts of a visit are determined. */
  lemma OneDescription(f: Facts, g: Facts, db: Database, lib: Strings, v: Visit)
    requires Describes(f, db, lib, v) && Describes(g, db, lib, v)
    ensures f == g
  {
    if v.referrer != "" {
      SameHost(lib.host(v.referrer), f.referrer, g.referrer);
    }
    OneName(db, f.referrer, f.name, g.name);
  }

  lemma OneName(db: Database, host: string, a: string, b: string)
    requires Names(db, host, a) && Names(db, host, b)
    ensures a == b
  {
    if host != "" && host !in db.exact {
      forall i: nat, j: nat | FirstSuffix(db.suffixes, host, i) && FirstSuffix(db.suffixes, host, j) ensures i == j {
      }
    }
  }

  lemma SameHost(full: string, a: string, b: string)
    requires WithoutWww(full, a) && WithoutWww(full, b)
    ensures a == b
  {
    assert "www." + a == full ==> full[4..] == a;
    assert "www." + b == full ==> full[4..] == b;
  }

  /** Step 0. */
  method Normalize(db: Database, lib: Strings, v: Visit) returns (f: Facts)
    ensures Describes(f, db, lib, v)
  {
    var host := "";
    if v.referrer != "" {
      host := lib.host(v.referrer);
      if "www." <= host {
        host := host[4..];
      }
    }
    var name := "";
    if host != "" {
      if host in db.exact {
        name := db.exact[host];
      } else {
        name := Suffix(db, host);
      }
    }
    f := Facts(db, host, name, lib.lower(lib.trim(v.source)), lib.lower(lib.trim(v.medium)),
      lib.lower(lib.trim(v.campaign)), lib.trim(v.clickID));
  }

  method Suffix(db: Database, host: string) returns (name: string)
    requires host != "" && host !in db.exact
    ensures Names(db, host, name)
  {
    for i := 0 to |db.suffixes|
      invariant forall j :: 0 <= j < i ==> !HasSuffix(host, db.suffixes[j].0)
    {
      if HasSuffix(host, db.suffixes[i].0) {
        assert FirstSuffix(db.suffixes, host, i);
        return db.suffixes[i].1;
      }
    }
    name := "";
  }

  /** The ladder's context: the facts, and the two predicates the second step fills in. */
  class Context {
    const f: Facts
    var isPaidMedium: bool
    var isShopping: bool

    constructor (facts: Facts)
      ensures f == facts && !isPaidMedium && !isShopping
    {
      f, isPaidMedium, isShopping := facts, false, false;
    }

    predicate Computed()
      reads this
    {
      isPaidMedium == PaidMedium(f.medium) && isShopping == Shopping(f)
    }

    /** One step. It decides for the labels it stands for, and only those, in their order. */
    method Step(n: nat) returns (given: Option<string>)
      requires 1 <= n <= 15 && (n > 2 ==> Computed())
      modifies this
      ensures n >= 2 ==> Computed()
      ensures given == Decided(f, RuleOf(n), RuleOf(n + 1))
    {
      if n == 2 {
        ComputePredicates();
        return None;
      } else if n == 15 {
        given := Misc();
        return;
      }
      JustOne(f, RuleOf(n));
      var matched: bool;
      if n <= 4 {
        matched := CrossOrSearch(n);
      } else if n <= 8 {
        matched := Paid(n);
      } else if n <= 11 {
        matched := OrganicMedia(n);
      } else {
        matched := Organic(n);
      }
      given := if matched then Some(Label(RuleOf(n))) else None;
    }

    /** Step 2. */
    method ComputePredicates()
      modifies this
      ensures Computed()
    {
      PaidFindsSubstrings(f.medium);
      ShoppingFinds(f.campaign);
      isPaidMedium := Finds(PAID, f.medium);
      isShopping := InSet(f.db.shop, f.referrer) || Finds(SHOPPING, f.campaign);
    }

    method CrossOrSearch(n: nat) returns (matched: bool)
      requires n == 1 || (n in {3, 4} && Computed())
      ensures matched == Applies(RuleOf(n), f)
    {
      match n
      case 1 => matched := Contains(f.campaign, "cross-network");
      case 3 => matched := isShopping && isPaidMedium;
      case _ =>
        if InSet(f.db.search, f.referrer) && isPaidMedium {
          return true;
        }
        if f.name == "google" && f.clickID == "(gclid)" {
          return true;
        }
        matched := f.name == "bing" && f.clickID == "(msclkid)";
    }

    method Paid(n: nat) returns (matched: bool)
      requires 5 <= n <= 8 && Computed()
      ensures matched == Applies(RuleOf(n), f)
    {
      match n
      case 5 => matched := InSet(f.db.social, f.referrer) && isPaidMedium;
      case 6 => matched := InSet(f.db.video, f.referrer) && isPaidMedium;
      case 7 => matched := f.medium in DISPLAY;
      case _ => matched := isPaidMedium;
    }

    method OrganicMedia(n: nat) returns (matched: bool)
      requires 9 <= n <= 11 && Computed()
      ensures matched == Applies(RuleOf(n), f)
    {
      match n
      case 9 => matched := isShopping;
      case 10 => matched := InSet(f.db.social, f.referrer) || f.medium in SOCIAL;
      case _ => matched := InSet(f.db.video, f.referrer) || Contains(f.medium, "video");
    }

    method Organic(n: nat) returns (matched: bool)
      requires 12 <= n <= 14
      ensures matched == Applies(RuleOf(n), f)
    {
      match n
      case 12 => matched := InSet(f.db.search, f.referrer) || f.medium == "organic";
      case 13 => matched := f.medium in REFERRAL || (f.referrer != "" && InSet(f.db.referral, f.referrer));
      case _ =>
        if f.referrer in EMAIL {
          return true;
        }
        if f.source in EMAIL {
          return true;
        }
        if f.medium in EMAIL {
          return true;
        }
        matched := InSet(f.db.email, f.referrer);
    }

    /** Step 15. */
    method Misc() returns (given: Option<string>)
      ensures given == Decided(f, 13, 18)
    {
      if f.medium == "affiliate" {
        return Some("Affiliates");
      } else if f.medium == "audio" {
        return Some("Audio");
      }
      if f.referrer == "sms" || f.source == "sms" || f.medium == "sms" {
        return Some("SMS");
      }
      if HasSuffix(f.medium, "push") || Contains(f.medium, "mobile") || Contains(f.medium, "notification") {
        return Some("Mobile Push Notifications");
      }
      if f.referrer in PUSH || f.source in PUSH {
        return Some("Mobile Push Notifications");
      }
      if InSet(f.db.ai, f.referrer) || f.source in f.db.ai {
        return Some("AI");
      }
      given := None;
    }
  }

  /** The first label a step decides for: the second step decides none, the last five. */
  function RuleOf(n: nat): (r: nat)
    requires 1 <= n <= 16
    ensures r <= RULES
  {
    if n <= 2 then n - 1 else if n == 16 then RULES else n - 2
  }

  /** The label among lo..hi that comes first, if one applies. */
  function Decided(f: Facts, lo: nat, hi: nat): Option<string>
    requires lo <= hi <= RULES
    decreases hi - lo
  {
    if lo == hi then None else if Applies(lo, f) then Some(Label(lo)) else Decided(f, lo + 1, hi)
  }

  lemma JustOne(f: Facts, rule: nat)
    requires rule < RULES
    ensures Decided(f, rule, rule + 1) == if Applies(rule, f) then Some(Label(rule)) else None
  {
    assert Decided(f, rule + 1, rule + 1).None?;
  }

  lemma {:induction false} DecidedIsFirst(f: Facts, lo: nat, hi: nat)
    requires lo <= hi <= RULES
    ensures Decided(f, lo, hi).None? ==> First(f, lo) == First(f, hi)
    ensures Decided(f, lo, hi).Some? ==> First(f, lo) < hi && Decided(f, lo, hi) == Some(Label(First(f, lo)))
    decreases hi - lo
  {
    if lo < hi && !Applies(lo, f) {
      DecidedIsFirst(f, lo + 1, hi);
    }
  }

  datatype Decision = Decision(referrerName: string, channel: string)

  /** The loop over the steps gives the pure priority choice. Before a database is loaded
      everything is Direct. */
  method Classify(db: Option<Database>, lib: Strings, v: Visit) returns (d: Decision)
    ensures db.None? ==> d == Decision("", "Direct")
    ensures db.Some? ==> exists f :: Describes(f, db.value, lib, v) && d == Decision(f.name, ChannelOf(f))
  {
    if db.None? {
      return Decision("", "Direct");
    }
    var f := Normalize(db.value, lib, v);
    var given := Ladder(f);
    d := Decision(f.name, given);
  }

  /** The loop over the steps. */
  method Ladder(f: Facts) returns (given: string)
    ensures given == ChannelOf(f)
  {
    var c := new Context(f);
    for n := 1 to 16
      invariant n > 2 ==> c.Computed()
      invariant First(f, 0) == First(f, RuleOf(n))
    {
      var decided := c.Step(n);
      DecidedIsFirst(f, RuleOf(n), RuleOf(n + 1));
      if decided.Some? {
        return decided.value;
      }
    }
    given := "Direct";
  }
}
