/** From one consent to every credential descended from it: authorization code, refresh
    tokens after any number of rotations, access-token claims and resource-server grants. */
module Lineage {
  import opened Basics
  import opened OAuthStore
  import opened Consent
  import R = OAuthRuns

  /** What the user agreed to, and what they and the deployment could agree to at that time. */
  datatype Agreement = Agreement(grant: Grant, held: map<Site, Role>, ceiling: seq<Site>)

  /** The claims of an access token that carry the grant, with the code they descend from. */
  datatype Access = Access(grant: Grant, root: Hash)

  datatype State = State(
    tables: R.Tables,
    agreements: map<Hash, Agreement>,  // by the hash of the code issued for it
    roots: map<nat, Hash>,             // refresh family to the code it came from
    access: seq<Access>)

  datatype Op =
    | ConsentTo(user: nat, client: string, scope: string, audience: string, redirect: string, challenge: string,
                posted: seq<string>, held: map<Site, Role>, ceiling: seq<Site>, code: Hash, expires: int, db: Insert)
    | Exchange(code: Hash, client: string, redirect: string, pkceOk: bool, now: int, up: bool, burn: Insert,
               refresh: Hash, family: nat, refreshExpires: int, save: Insert)
    | Refresh(presented: Hash, successor: Hash, client: string, now: int,
              up: bool, mark: Insert, add: Insert, sweep: Sweep)

  function Init(): State {
    State(R.Tables(map[], map[]), map[], map[], [])
  }

  /** Random codes, tokens and families are new. */
  predicate Fresh(s: State, op: Op) {
    match op
    case ConsentTo(_, _, _, _, _, _, _, _, _, code, _, _) => code !in s.agreements
    case Exchange(_, _, _, _, _, _, _, refresh, family, _, _) => refresh !in s.tables.tokens && family !in s.roots
    case Refresh(_, successor, _, _, _, _, _, _) => successor !in s.tables.tokens
  }

  /** The consent handler: refuses when the clamp leaves no site, otherwise saves a code. */
  function DoConsent(s: State, op: Op): State
    requires op.ConsentTo?
  {
    var sites := Clamped(op.posted, op.held, op.ceiling);
    if sites == [] then s
    else
      var grant := Grant(op.client, op.user, op.scope, op.audience, sites);
      s.(tables := R.Apply(s.tables,
        R.SaveCode(op.code, AuthCode(grant, op.redirect, op.challenge, op.expires), op.db)),
         agreements := s.agreements[op.code := Agreement(grant, op.held, op.ceiling)])
  }

  /** The authorization_code grant: the code is burnt before its binding is checked; a new
      family and an access token follow only when everything matched and was saved. */
  function DoExchange(s: State, op: Op): State
    requires op.Exchange?
  {
    var consume := R.ConsumeCode(op.code, op.now, op.up, op.burn);
    var burnt := s.(tables := R.Apply(s.tables, consume));
    match R.Answer(s.tables, consume)
    case Granted(code) =>
      if code.grant.client != op.client || code.redirect != op.redirect || !op.pkceOk then burnt
      else
        var save := R.SaveToken(op.refresh, RefreshToken(code.grant, op.family, op.refreshExpires), op.save);
        burnt.(tables := R.Apply(burnt.tables, save), roots := s.roots[op.family := op.code],
               access := if op.save.Done? then s.access + [Access(code.grant, op.code)] else s.access)
    case _ => burnt
  }

  function DoRefresh(s: State, op: Op): State
    requires op.Refresh?
  {
    var rotate := R.RotateToken(op.presented, op.successor, op.client, op.now, op.up, op.mark, op.add, op.sweep);
    var after := s.(tables := R.Apply(s.tables, rotate));
    match R.Answer(s.tables, rotate)
    case Rotated(token) =>
      if token.family in s.roots
      then after.(access := s.access + [Access(token.grant, s.roots[token.family])])
      else after
    case _ => after
  }

  function Apply(s: State, op: Op): State {
    match op
    case ConsentTo(_, _, _, _, _, _, _, _, _, _, _, _) => DoConsent(s, op)
    case Exchange(_, _, _, _, _, _, _, _, _, _, _) => DoExchange(s, op)
    case Refresh(_, _, _, _, _, _, _, _) => DoRefresh(s, op)
  }

  function After(ops: seq<Op>): State {
    if ops == [] then Init() else Apply(After(ops[..|ops| - 1]), ops[|ops| - 1])
  }

  ghost predicate FreshRun(ops: seq<Op>) {
    forall i :: 0 <= i < |ops| ==> Fresh(After(ops[..i]), ops[i])
  }

  /** The agreed sites are held by the user and inside the ceiling of the time, and not empty. */
  ghost predicate Sound(a: Agreement) {
    a.grant.sites != [] && forall s <- a.grant.sites :: s in a.held && s in a.ceiling
  }

  ghost predicate Lineal(s: State) {
    && (forall h <- s.agreements :: Sound(s.agreements[h]))
    && (forall h <- s.tables.codes :: h in s.agreements && s.tables.codes[h].code.grant == s.agreements[h].grant)
    && (forall f <- s.roots :: s.roots[f] in s.agreements)
    && (forall h <- s.tables.tokens ::
          && s.tables.tokens[h].token.family in s.roots
          && s.tables.tokens[h].token.grant == s.agreements[s.roots[s.tables.tokens[h].token.family]].grant)
    && (forall a <- s.access :: a.root in s.agreements && a.grant == s.agreements[a.root].grant)
  }

  lemma ConsentKeeps(s: State, op: Op)
    requires Lineal(s) && Fresh(s, op) && op.ConsentTo?
    ensures Lineal(Apply(s, op))
  {
    var sites := Clamped(op.posted, op.held, op.ceiling);
    forall x <- sites ensures x in op.held && x in op.ceiling {
      ClampedExactly(op.posted, op.held, op.ceiling, x);
    }
  }

  /** Consuming a code changes only its flag; rotating adds at most a successor that carries
      the presented token on. */
  lemma StoreCarriesGrantsOn(t: R.Tables, op: R.Op)
    ensures op.ConsumeCode? ==>
      var u := R.Apply(t, op);
      u.tokens == t.tokens && u.codes.Keys == t.codes.Keys && forall h <- u.codes :: u.codes[h].code == t.codes[h].code
    ensures op.RotateToken? && op.successor !in t.tokens ==>
      var u := R.Apply(t, op);
      u.codes == t.codes && forall h <- u.tokens ::
        if h in t.tokens then
          u.tokens[h].token == t.tokens[h].token
        else
          op.presented in t.tokens && u.tokens[h].token == t.tokens[op.presented].token
    ensures R.Answer(t, op).Granted? ==> op.h in t.codes && R.Answer(t, op).code == t.codes[op.h].code
    ensures R.Answer(t, op).Rotated? ==>
      op.presented in t.tokens && R.Answer(t, op).token == t.tokens[op.presented].token
  {
  }

  lemma ExchangeKeeps(s: State, op: Op)
    requires Lineal(s) && Fresh(s, op) && op.Exchange?
    ensures Lineal(Apply(s, op))
  {
    var consume := R.ConsumeCode(op.code, op.now, op.up, op.burn);
    StoreCarriesGrantsOn(s.tables, consume);
    var burnt := s.(tables := R.Apply(s.tables, consume));
    assert Lineal(burnt);
    var answer := R.Answer(s.tables, consume);
    if answer.Granted? {
      var code := answer.code;
      IssueKeeps(burnt, op.code, RefreshToken(code.grant, op.family, op.refreshExpires), op.refresh, op.save);
    }
  }

  /** A new family rooted in a known code, with that code's grant, is lineal. */
  lemma IssueKeeps(s: State, root: Hash, token: RefreshToken, h: Hash, db: Insert)
    requires Lineal(s) && root in s.agreements && token.grant == s.agreements[root].grant
    requires h !in s.tables.tokens && token.family !in s.roots
    ensures Lineal(s.(tables := R.Apply(s.tables, R.SaveToken(h, token, db)), roots := s.roots[token.family := root]))
    ensures Lineal(s.(tables := R.Apply(s.tables, R.SaveToken(h, token, db)), roots := s.roots[token.family := root],
                      access := s.access + [Access(token.grant, root)]))
  {
    var t := s.(tables := R.Apply(s.tables, R.SaveToken(h, token, db)), roots := s.roots[token.family := root]);
    assert Lineal(t);
  }

  lemma RefreshKeeps(s: State, op: Op)
    requires Lineal(s) && Fresh(s, op) && op.Refresh?
    ensures Lineal(Apply(s, op))
  {
    var rotate := R.RotateToken(op.presented, op.successor, op.client, op.now, op.up, op.mark, op.add, op.sweep);
    StoreCarriesGrantsOn(s.tables, rotate);
    var t := Apply(s, op);
    assert t.agreements == s.agreements && t.roots == s.roots && t.tables == R.Apply(s.tables, rotate);
  }

  lemma {:induction false} AlwaysLineal(ops: seq<Op>)
    requires FreshRun(ops)
    ensures Lineal(After(ops))
  {
    if ops != [] {
      var n := |ops| - 1;
      assert forall i :: 0 <= i < n ==> ops[..n][..i] == ops[..i];
      AlwaysLineal(ops[..n]);
      var s := After(ops[..n]);
      assert ops[..n] == ops[..|ops| - 1];
      match ops[n]
      case ConsentTo(_, _, _, _, _, _, _, _, _, _, _, _) => ConsentKeeps(s, ops[n]);
      case Exchange(_, _, _, _, _, _, _, _, _, _, _) => ExchangeKeeps(s, ops[n]);
      case Refresh(_, _, _, _, _, _, _, _) => RefreshKeeps(s, ops[n]);
    }
  }

  /** Every code, refresh token and access token of a run carries, unchanged, the client,
      user, scope, audience and sites of the one agreement it descends from, and those sites
      were held by that user and inside the ceiling at consent. */
  lemma EverythingDescendsFromItsConsent(ops: seq<Op>)
    requires FreshRun(ops)
    ensures var s := After(ops);
      && (forall h <- s.tables.codes :: h in s.agreements && s.tables.codes[h].code.grant == s.agreements[h].grant)
      && (forall h <- s.tables.tokens :: exists c <- s.agreements ::
        s.tables.tokens[h].token.grant == s.agreements[c].grant)
      && (forall a <- s.access :: a.root in s.agreements && a.grant == s.agreements[a.root].grant)
      && (forall c <- s.agreements :: Sound(s.agreements[c]))
  {
    AlwaysLineal(ops);
    var s := After(ops);
    forall h <- s.tables.tokens
      ensures exists c <- s.agreements :: s.tables.tokens[h].token.grant == s.agreements[c].grant
    {
      var c := s.roots[s.tables.tokens[h].token.family];
      assert c in s.agreements;
    }
  }

  /** With the ceiling of the consent, the resource server grants exactly the agreed sites,
      each with the API role: nothing consented is lost and nothing else is readable. */
  lemma ResourceServerGrantsExactlyTheConsent(ops: seq<Op>, k: nat)
    requires FreshRun(ops) && k < |After(ops).access|
    ensures var s := After(ops); var a := s.access[k];
      a.root in s.agreements &&
      GrantsOf(a.grant.sites, CeilingMap(s.agreements[a.root].ceiling)) ==
        map x <- s.agreements[a.root].grant.sites :: Api
  {
    AlwaysLineal(ops);
    var s := After(ops);
    assert s.access[k] in s.access;
    assert Sound(s.agreements[s.access[k].root]);
  }

  /** A consent that leaves a site files a code for exactly what was agreed, with the posted sites
      the user held inside the ceiling; one that leaves none files nothing. */
  lemma ConsentFilesExactly(s: State, op: Op)
    requires Fresh(s, op) && op.ConsentTo?
    ensures var t := Apply(s, op);
      if forall x :: !(x in Parsed(op.posted) && x in op.held && x in op.ceiling) then t == s
      else op.db.Stores() ==>
        && op.code in t.tables.codes && !t.tables.codes[op.code].consumed
        && var code := t.tables.codes[op.code].code;
        && code.grant.client == op.client && code.grant.user == op.user && code.grant.scope == op.scope
        && code.grant.audience == op.audience && code.redirect == op.redirect && code.challenge == op.challenge
        && code.expires == op.expires
        && (forall x :: x in code.grant.sites <==> x in Parsed(op.posted) && x in op.held && x in op.ceiling)
  {
    var sites := Clamped(op.posted, op.held, op.ceiling);
    forall x ensures x in sites <==> x in Parsed(op.posted) && x in op.held && x in op.ceiling {
      ClampedIs(op.posted, op.held, op.ceiling, x);
    }
    if sites != [] {
      assert sites[0] in sites;
    }
  }

  lemma ClampedIs(posted: seq<string>, held: map<Site, Role>, ceiling: seq<Site>, x: Site)
    ensures x in Clamped(posted, held, ceiling) <==> x in Parsed(posted) && x in held && x in ceiling
  {
    KeptExactly(Parsed(posted), Consentable(held, ceiling), x);
  }

  /** An exchange issues an access token, and files a live refresh token of a new family, exactly
      when the code is known, unconsumed and unexpired, everything bound to it matches, and the
      database is healthy. A code presented with the wrong binding is burnt all the same. */
  lemma ExchangeIssuesExactly(s: State, op: Op)
    requires Fresh(s, op) && op.Exchange?
    ensures var t, codes := Apply(s, op), s.tables.codes;
      && var usable := op.up && op.code in codes && !codes[op.code].consumed && op.now < codes[op.code].code.expires;
      && (usable && op.burn.Stores() ==> t.tables.codes[op.code].consumed)
      && if usable && op.burn.Done? && codes[op.code].code.grant.client == op.client
           && codes[op.code].code.redirect == op.redirect && op.pkceOk && op.save.Done?
         then
           && t.access == s.access + [Access(codes[op.code].code.grant, op.code)]
           && op.refresh in t.tables.tokens
           && t.tables.tokens[op.refresh] ==
                RefreshRow(RefreshToken(codes[op.code].code.grant, op.family, op.refreshExpires), false, false)
         else t.access == s.access
  {
  }

  /** And a refresh issues one exactly when the presented token is known, live and unexpired, its
      own client presents it, and the database is healthy. */
  lemma RefreshIssuesExactly(s: State, op: Op)
    requires Lineal(s) && Fresh(s, op) && op.Refresh?
    ensures var t, tokens := Apply(s, op), s.tables.tokens;
      if op.up && op.presented in tokens && !tokens[op.presented].rotated && !tokens[op.presented].revoked
        && tokens[op.presented].token.grant.client == op.client && op.now < tokens[op.presented].token.expires
        && op.mark.Done? && op.add.Done?
      then
        && |t.access| == |s.access| + 1 && t.access[..|s.access|] == s.access
        && t.access[|s.access|].grant == tokens[op.presented].token.grant
      else t.access == s.access
  {
  }
}
