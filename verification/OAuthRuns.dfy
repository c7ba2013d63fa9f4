/** What the store guarantees over every run of its operations, with any pattern of failed
    inserts. */
module OAuthRuns {
  import opened Basics
  import opened OAuthStore

  datatype Op =
    | SaveCode(h: Hash, code: AuthCode, db: Insert)
    | ConsumeCode(h: Hash, now: int, up: bool, db: Insert)
    | SaveToken(h: Hash, token: RefreshToken, db: Insert)
    | RotateToken(presented: Hash, successor: Hash, client: string, now: int,
                  up: bool, mark: Insert, add: Insert, sweep: Sweep)

  datatype Tables = Tables(codes: Codes, tokens: Tokens)

  datatype Outcome = Quiet | Granted(code: AuthCode) | Rotated(token: RefreshToken) | Rejected(error: Error)

  function Apply(s: Tables, op: Op): Tables {
    match op
    case SaveCode(h, code, db) => if db.Stores() then s.(codes := s.codes[h := CodeRow(code, false)]) else s
    case ConsumeCode(h, now, up, db) => s.(codes := Consume(s.codes, h, now, up, db).0)
    case SaveToken(h, token, db) =>
      if db.Stores() then s.(tokens := s.tokens[h := RefreshRow(token, false, false)]) else s
    case RotateToken(p, n, c, now, up, mark, add, sweep) =>
      s.(tokens := Rotate(s.tokens, p, n, c, now, up, mark, add, sweep).0)
  }

  function Answer(s: Tables, op: Op): Outcome {
    match op
    case SaveCode(_, _, _) => Quiet
    case ConsumeCode(h, now, up, db) =>
      (match Consume(s.codes, h, now, up, db).1
       case Ok(code) => Granted(code)
       case Err(e) => Rejected(e))
    case SaveToken(_, _, _) => Quiet
    case RotateToken(p, n, c, now, up, mark, add, sweep) =>
      (match Rotate(s.tokens, p, n, c, now, up, mark, add, sweep).1
       case Ok(token) => Rotated(token)
       case Err(e) => Rejected(e))
  }

  /** New credentials and new families are ones the tables have not seen. */
  predicate Fresh(s: Tables, op: Op) {
    match op
    case SaveCode(h, _, _) => h !in s.codes
    case ConsumeCode(_, _, _, _) => true
    case SaveToken(h, token, _) => h !in s.tokens && forall x <- s.tokens :: s.tokens[x].token.family != token.family
    case RotateToken(_, n, _, _, _, _, _, _) => n !in s.tokens
  }

  function After(ops: seq<Op>): Tables {
    if ops == [] then Tables(map[], map[]) else Apply(After(ops[..|ops| - 1]), ops[|ops| - 1])
  }

  function At(ops: seq<Op>, i: nat): Tables
    requires i <= |ops|
  {
    After(ops[..i])
  }

  ghost predicate FreshRun(ops: seq<Op>) {
    forall i :: 0 <= i < |ops| ==> Fresh(At(ops, i), ops[i])
  }

  lemma NextAt(ops: seq<Op>, i: nat)
    requires i < |ops|
    ensures At(ops, i + 1) == Apply(At(ops, i), ops[i])
  {
    assert ops[..i + 1][..i] == ops[..i];
  }

  /** What one operation does to the code table: it adds at most the code it saves, and otherwise
      only marks codes as consumed. */
  lemma CodesStep(s: Tables, op: Op, h: Hash)
    requires Fresh(s, op)
    ensures var t := Apply(s, op);
      if h in s.codes then
        h in t.codes && t.codes[h].code == s.codes[h].code && (s.codes[h].consumed ==> t.codes[h].consumed)
      else
        h in t.codes ==> op.SaveCode? && op.h == h && op.code == t.codes[h].code
  {
  }

  /** Every stored code is one that was saved, unchanged but for being consumed. */
  lemma {:induction false} StoredCodesWereSaved(ops: seq<Op>, i: nat, h: Hash)
    requires FreshRun(ops) && i <= |ops| && h in At(ops, i).codes
    ensures exists k :: 0 <= k < i && ops[k].SaveCode? && ops[k].h == h && ops[k].code == At(ops, i).codes[h].code
  {
    if i > 0 {
      NextAt(ops, i - 1);
      CodesStep(At(ops, i - 1), ops[i - 1], h);
      if h in At(ops, i - 1).codes {
        StoredCodesWereSaved(ops, i - 1, h);
      } else {
        assert ops[i - 1].SaveCode? && ops[i - 1].h == h;
      }
    }
  }

  lemma {:induction false} ConsumedStays(ops: seq<Op>, i: nat, j: nat, h: Hash)
    requires FreshRun(ops) && i <= j <= |ops|
    requires h in At(ops, i).codes && At(ops, i).codes[h].consumed
    ensures h in At(ops, j).codes && At(ops, j).codes[h].consumed
  {
    if i < j {
      ConsumedStays(ops, i, j - 1, h);
      NextAt(ops, j - 1);
      CodesStep(At(ops, j - 1), ops[j - 1], h);
    }
  }

  /** A code yields its grant at most once, only before it expires, and exactly as saved. */
  lemma CodesAreSingleUse(ops: seq<Op>, i: nat)
    requires FreshRun(ops) && i < |ops| && Answer(At(ops, i), ops[i]).Granted?
    ensures var h, code := ops[i].h, Answer(At(ops, i), ops[i]).code;
      && ops[i].now < code.expires
      && (exists k :: 0 <= k < i && ops[k].SaveCode? && ops[k].h == h && ops[k].code == code)
      && (forall j :: i < j < |ops| && ops[j].ConsumeCode? && ops[j].h == h ==> !Answer(At(ops, j), ops[j]).Granted?)
  {
    var h := ops[i].h;
    StoredCodesWereSaved(ops, i, h);
    NextAt(ops, i);
    forall j | i < j < |ops| && ops[j].ConsumeCode? && ops[j].h == h ensures !Answer(At(ops, j), ops[j]).Granted? {
      ConsumedStays(ops, i + 1, j, h);
    }
  }

  predicate Live(row: RefreshRow) {
    !row.rotated && !row.revoked
  }

  /** The members of a family carry one grant and one expiry, and at most one is live. */
  ghost predicate Families(t: Tokens) {
    forall a, b :: a in t && b in t && t[a].token.family == t[b].token.family ==>
      t[a].token == t[b].token && (Live(t[a]) && Live(t[b]) ==> a == b)
  }

  lemma RevokingKeepsFamilies(t: Tokens, hs: set<Hash>)
    requires Families(t)
    ensures Families(WithRevoked(t, hs))
  {
  }

  /** Marking the presented token before writing its successor leaves one live member at most. */
  lemma SucceedingKeepsFamilies(t: Tokens, p: Hash, n: Hash)
    requires Families(t) && p in t && Live(t[p]) && n !in t
    ensures var marked := t[p := t[p].(rotated := true)];
      Families(marked) && Families(marked[n := RefreshRow(t[p].token, false, false)])
  {
  }

  lemma FamiliesKept(s: Tables, op: Op)
    requires Families(s.tokens) && Fresh(s, op)
    ensures Families(Apply(s, op).tokens)
  {
    if op.RotateToken? && op.presented in s.tokens {
      var row := s.tokens[op.presented];
      if Suspicious(row, op.client) {
        var all := Members(s.tokens, row.token.family);
        RevokingKeepsFamilies(s.tokens, all);
        RevokingKeepsFamilies(s.tokens, all * op.sweep.reached);
      } else {
        SucceedingKeepsFamilies(s.tokens, op.presented, op.successor);
      }
    }
  }

  lemma {:induction false} FamiliesHold(ops: seq<Op>, i: nat)
    requires FreshRun(ops) && i <= |ops|
    ensures Families(At(ops, i).tokens)
  {
    if i > 0 {
      FamiliesHold(ops, i - 1);
      NextAt(ops, i - 1);
      FamiliesKept(At(ops, i - 1), ops[i - 1]);
    }
  }

  /** A rotation succeeds only for the live member of its family, presented by the client it
      was granted to, before it expires; and it carries the family's grant on unchanged. */
  lemma OnlyTheLiveMemberRotates(ops: seq<Op>, i: nat)
    requires FreshRun(ops) && i < |ops| && Answer(At(ops, i), ops[i]).Rotated?
    ensures var t, op := At(ops, i).tokens, ops[i]; var token := Answer(At(ops, i), op).token;
      && op.presented in t && t[op.presented].token == token && Live(t[op.presented])
      && (forall h <- t :: t[h].token.family == token.family && Live(t[h]) ==> h == op.presented)
      && op.client == token.grant.client && op.now < token.expires
      && var after := At(ops, i + 1).tokens;
         && op.successor in after && after[op.successor] == RefreshRow(token, false, false)
         && (forall h <- after :: after[h].token.family == token.family && Live(after[h]) ==> h == op.successor)
  {
    FamiliesHold(ops, i);
    FamiliesHold(ops, i + 1);
    NextAt(ops, i);
  }

  ghost predicate Dead(t: Tokens, family: nat) {
    && (exists h <- t :: t[h].token.family == family)
    && forall h <- t :: t[h].token.family == family ==> t[h].revoked
  }

  lemma DeadStays(s: Tables, op: Op, family: nat)
    requires Dead(s.tokens, family) && Fresh(s, op)
    ensures Dead(Apply(s, op).tokens, family)
  {
    var h :| h in s.tokens && s.tokens[h].token.family == family;
    assert h in Apply(s, op).tokens && Apply(s, op).tokens[h].token.family == family;
  }

  lemma {:induction false} DeadForever(ops: seq<Op>, i: nat, j: nat, family: nat)
    requires FreshRun(ops) && i <= j <= |ops| && Dead(At(ops, i).tokens, family)
    ensures Dead(At(ops, j).tokens, family)
  {
    if i < j {
      DeadForever(ops, i, j - 1, family);
      NextAt(ops, j - 1);
      DeadStays(At(ops, j - 1), ops[j - 1], family);
    }
  }

  /** Once a call has reported reuse, no member of that family ever rotates again. */
  lemma ReuseKillsTheFamily(ops: seq<Op>, i: nat, j: nat)
    requires FreshRun(ops) && i < j < |ops|
    requires Answer(At(ops, i), ops[i]) == Rejected(RefreshReused)
    requires Answer(At(ops, j), ops[j]).Rotated?
    ensures Answer(At(ops, j), ops[j]).token.family != At(ops, i).tokens[ops[i].presented].token.family
  {
    var family := At(ops, i).tokens[ops[i].presented].token.family;
    NextAt(ops, i);
    assert ops[i].presented in At(ops, i + 1).tokens;
    assert Dead(At(ops, i + 1).tokens, family);
    DeadForever(ops, i + 1, j, family);
  }

  /** The i-th operation takes h in exchange for a successor: a known, live and unexpired token,
      presented by its own client, and the mark reaches the table. */
  predicate Spends(ops: seq<Op>, i: nat, h: Hash)
    requires i < |ops|
  {
    var op, t := ops[i], At(ops, i).tokens;
    && op.RotateToken? && op.presented == h && op.up && op.mark.Stores()
    && h in t && !t[h].rotated && !t[h].revoked
    && t[h].token.grant.client == op.client && op.now < t[h].token.expires
  }

  /** The i-th operation revokes h: a token of its family is presented again, after its revocation
      or by another client, and the sweep reaches h. */
  predicate Sweeps(ops: seq<Op>, i: nat, h: Hash)
    requires i < |ops|
  {
    var op, t := ops[i], At(ops, i).tokens;
    && op.RotateToken? && op.up && op.presented in t && h in t
    && t[h].token.family == t[op.presented].token.family
    && (t[op.presented].rotated || t[op.presented].revoked || t[op.presented].token.grant.client != op.client)
    && (op.sweep.all || h in op.sweep.reached)
  }

  /** What one operation does to a stored token: nothing, unless it spends or sweeps it. */
  lemma TokenStep(ops: seq<Op>, i: nat, h: Hash)
    requires FreshRun(ops) && i < |ops| && h in At(ops, i).tokens
    ensures var row := At(ops, i).tokens[h]; var t := At(ops, i + 1).tokens;
      && h in t && t[h].token == row.token
      && (t[h].rotated <==> row.rotated || Spends(ops, i, h))
      && (t[h].revoked <==> row.revoked || Sweeps(ops, i, h))
  {
    NextAt(ops, i);
  }

  /** A token that appears is neither rotated nor revoked. */
  lemma TokenAppears(ops: seq<Op>, i: nat, h: Hash)
    requires FreshRun(ops) && i < |ops| && h !in At(ops, i).tokens && h in At(ops, i + 1).tokens
    ensures Live(At(ops, i + 1).tokens[h]) && !Spends(ops, i, h) && !Sweeps(ops, i, h)
    ensures (ops[i].SaveToken? && ops[i].h == h) || (ops[i].RotateToken? && ops[i].successor == h)
  {
    NextAt(ops, i);
  }

  ghost predicate WasSpent(ops: seq<Op>, j: nat, h: Hash)
    requires j <= |ops|
  {
    exists i :: 0 <= i < j && Spends(ops, i, h)
  }

  ghost predicate WasSwept(ops: seq<Op>, j: nat, h: Hash)
    requires j <= |ops|
  {
    exists i :: 0 <= i < j && Sweeps(ops, i, h)
  }

  lemma OneMoreOp(ops: seq<Op>, j: nat, h: Hash)
    requires j < |ops|
    ensures WasSpent(ops, j + 1, h) <==> WasSpent(ops, j, h) || Spends(ops, j, h)
    ensures WasSwept(ops, j + 1, h) <==> WasSwept(ops, j, h) || Sweeps(ops, j, h)
  {
  }

  /** The flags of a stored token are its history: rotated exactly when it was spent, revoked
      exactly when a sweep reached it. */
  lemma {:induction false} FlagsAreHistory(ops: seq<Op>, j: nat, h: Hash)
    requires FreshRun(ops) && j <= |ops|
    ensures h in At(ops, j).tokens ==>
      && (At(ops, j).tokens[h].rotated <==> WasSpent(ops, j, h))
      && (At(ops, j).tokens[h].revoked <==> WasSwept(ops, j, h))
    ensures h !in At(ops, j).tokens ==> !WasSpent(ops, j, h) && !WasSwept(ops, j, h)
  {
    if j > 0 {
      FlagsAreHistory(ops, j - 1, h);
      OneMoreOp(ops, j - 1, h);
      if h in At(ops, j - 1).tokens {
        TokenStep(ops, j - 1, h);
      } else if h in At(ops, j).tokens {
        TokenAppears(ops, j - 1, h);
      } else {
        NeverSeen(ops, j - 1, h);
      }
    }
  }

  lemma NeverSeen(ops: seq<Op>, i: nat, h: Hash)
    requires i < |ops| && h !in At(ops, i).tokens
    ensures !Spends(ops, i, h) && !Sweeps(ops, i, h)
  {
  }

  /** Every answer to a presented token, by its history: unknown, reported as reuse when it was
      spent, swept or is presented by another client, expired, or rotated. Only failed reads and
      writes lead elsewhere. */
  lemma TokenAnswers(ops: seq<Op>, j: nat)
    requires FreshRun(ops) && j < |ops| && ops[j].RotateToken? && ops[j].up
    ensures var op, t, answer := ops[j], At(ops, j).tokens, Answer(At(ops, j), ops[j]);
      if op.presented !in t then answer == Rejected(RefreshInvalid)
      else if WasSpent(ops, j, op.presented) || WasSwept(ops, j, op.presented)
        || t[op.presented].token.grant.client != op.client
      then answer == if op.sweep.all then Rejected(RefreshReused) else Rejected(DbError)
      else if op.now >= t[op.presented].token.expires then answer == Rejected(RefreshExpired)
      else answer == if op.mark.Done? && op.add.Done? then Rotated(t[op.presented].token) else Rejected(DbError)
  {
    FlagsAreHistory(ops, j, ops[j].presented);
  }

  lemma {:induction false} TokensStay(ops: seq<Op>, i: nat, j: nat, h: Hash)
    requires FreshRun(ops) && i <= j <= |ops| && h in At(ops, i).tokens
    ensures h in At(ops, j).tokens && At(ops, j).tokens[h].token == At(ops, i).tokens[h].token
  {
    if i < j {
      TokensStay(ops, i, j - 1, h);
      TokenStep(ops, j - 1, h);
    }
  }

  /** A token that was rotated once is reported as reuse whenever it is presented again, by
      whomever, and its whole family is dead from then on. */
  lemma ReplayIsReported(ops: seq<Op>, i: nat, j: nat)
    requires FreshRun(ops) && i < j < |ops| && Answer(At(ops, i), ops[i]).Rotated?
    requires ops[j].RotateToken? && ops[j].presented == ops[i].presented && ops[j].up && ops[j].sweep.all
    ensures Answer(At(ops, j), ops[j]) == Rejected(RefreshReused)
    ensures Dead(At(ops, j + 1).tokens, Answer(At(ops, i), ops[i]).token.family)
  {
    var h := ops[i].presented;
    OnlyTheLiveMemberRotates(ops, i);
    assert Spends(ops, i, h);
    TokensStay(ops, i, j, h);
    TokenAnswers(ops, j);
    ReportKills(ops, j);
  }

  lemma ReportKills(ops: seq<Op>, j: nat)
    requires FreshRun(ops) && j < |ops| && Answer(At(ops, j), ops[j]) == Rejected(RefreshReused)
    ensures ops[j].presented in At(ops, j).tokens
    ensures Dead(At(ops, j + 1).tokens, At(ops, j).tokens[ops[j].presented].token.family)
  {
    NextAt(ops, j);
    assert ops[j].presented in At(ops, j + 1).tokens;
  }

  /** Once reuse was reported, every token of the family known then is reported whenever it is
      presented. */
  lemma SweptTokensAreReported(ops: seq<Op>, i: nat, j: nat)
    requires FreshRun(ops) && i < j < |ops| && Answer(At(ops, i), ops[i]) == Rejected(RefreshReused)
    requires ops[j].RotateToken? && ops[j].up && ops[j].sweep.all
    requires ops[j].presented in At(ops, j).tokens
    requires At(ops, j).tokens[ops[j].presented].token.family == At(ops, i).tokens[ops[i].presented].token.family
    ensures Answer(At(ops, j), ops[j]) == Rejected(RefreshReused)
  {
    var family := At(ops, i).tokens[ops[i].presented].token.family;
    ReportKills(ops, i);
    DeadForever(ops, i + 1, j, family);
    FlagsAreHistory(ops, j, ops[j].presented);
    TokenAnswers(ops, j);
  }

  /** And a well-behaved client is never turned away: the newest token of a family of which nobody
      has presented any token since rotates, when its own client presents it before it expires
      and the database is healthy. */
  lemma TheNewestTokenRotates(ops: seq<Op>, i: nat, j: nat, h: Hash)
    requires FreshRun(ops) && i < j < |ops| && h !in At(ops, i).tokens && h in At(ops, i + 1).tokens
    requires var token := At(ops, i + 1).tokens[h].token;
      && (forall m :: i < m < j && ops[m].RotateToken? && ops[m].presented in At(ops, m).tokens ==>
            At(ops, m).tokens[ops[m].presented].token.family != token.family)
      && ops[j].RotateToken? && ops[j].presented == h && ops[j].client == token.grant.client
      && ops[j].now < token.expires && ops[j].up && ops[j].mark.Done? && ops[j].add.Done?
    ensures Answer(At(ops, j), ops[j]) == Rotated(At(ops, i + 1).tokens[h].token)
  {
    TokensStay(ops, i + 1, j, h);
    FlagsAreHistory(ops, i, h);
    TokenAppears(ops, i, h);
    forall m | 0 <= m < j ensures !Spends(ops, m, h) && !Sweeps(ops, m, h) {
      if m > i {
        TokensStay(ops, i + 1, m, h);
      } else if m < i {
        assert !WasSpent(ops, i, h) && !WasSwept(ops, i, h);
      }
    }
    TokenAnswers(ops, j);
  }

  /** The m-th operation burns h: a known, unconsumed and unexpired code, and the burn reaches the
      table. */
  predicate Burns(ops: seq<Op>, m: nat, h: Hash)
    requires m < |ops|
  {
    var op, t := ops[m], At(ops, m).codes;
    && op.ConsumeCode? && op.h == h && op.up && op.db.Stores()
    && h in t && !t[h].consumed && op.now < t[h].code.expires
  }

  lemma BurnStep(ops: seq<Op>, m: nat, h: Hash)
    requires FreshRun(ops) && m < |ops|
    ensures var s, t := At(ops, m).codes, At(ops, m + 1).codes;
      if h in s then h in t && t[h].code == s[h].code && (t[h].consumed <==> s[h].consumed || Burns(ops, m, h))
      else !Burns(ops, m, h) && (h in t ==> !t[h].consumed)
  {
    NextAt(ops, m);
  }

  ghost predicate WasBurnt(ops: seq<Op>, j: nat, h: Hash)
    requires j <= |ops|
  {
    exists m :: 0 <= m < j && Burns(ops, m, h)
  }

  lemma OneMoreBurn(ops: seq<Op>, j: nat, h: Hash)
    requires j < |ops|
    ensures WasBurnt(ops, j + 1, h) <==> WasBurnt(ops, j, h) || Burns(ops, j, h)
  {
  }

  /** The flag of h agrees with its history before the j-th operation. */
  ghost predicate FlagTells(ops: seq<Op>, j: nat, h: Hash)
    requires j <= |ops|
  {
    var t := At(ops, j).codes;
    if h in t then t[h].consumed <==> WasBurnt(ops, j, h) else !WasBurnt(ops, j, h)
  }

  lemma FlagTellsOn(ops: seq<Op>, j: nat, h: Hash)
    requires FreshRun(ops) && j < |ops| && FlagTells(ops, j, h)
    ensures FlagTells(ops, j + 1, h)
  {
    OneMoreBurn(ops, j, h);
    BurnStep(ops, j, h);
  }

  /** A stored code is consumed exactly when it was burnt. */
  lemma {:induction false} ConsumedIsHistory(ops: seq<Op>, j: nat, h: Hash)
    requires FreshRun(ops) && j <= |ops|
    ensures FlagTells(ops, j, h)
  {
    if j > 0 {
      ConsumedIsHistory(ops, j - 1, h);
      FlagTellsOn(ops, j - 1, h);
    }
  }

  ghost predicate Holds(t: Codes, h: Hash, code: AuthCode) {
    h in t && t[h].code == code
  }

  lemma CodeStays(ops: seq<Op>, i: nat, h: Hash, code: AuthCode)
    requires FreshRun(ops) && i < |ops| && Holds(At(ops, i).codes, h, code)
    ensures Holds(At(ops, i + 1).codes, h, code)
  {
    BurnStep(ops, i, h);
  }

  lemma {:induction false} CodesStay(ops: seq<Op>, i: nat, j: nat, h: Hash, code: AuthCode)
    requires FreshRun(ops) && i <= j <= |ops| && Holds(At(ops, i).codes, h, code)
    ensures Holds(At(ops, j).codes, h, code)
  {
    if i < j {
      CodesStay(ops, i, j - 1, h, code);
      CodeStays(ops, j - 1, h, code);
    }
  }

  /** Every answer to a code that was saved, by its history: consumed if it was burnt before,
      else expired, else granted exactly as saved, if the burn succeeds. */
  lemma CodeAnswers(ops: seq<Op>, i: nat, j: nat)
    requires FreshRun(ops) && i < j < |ops| && ops[i].SaveCode? && ops[i].db.Stores()
    requires ops[j].ConsumeCode? && ops[j].h == ops[i].h && ops[j].up
    ensures var op, answer := ops[j], Answer(At(ops, j), ops[j]);
      if WasBurnt(ops, j, op.h) then answer == Rejected(CodeConsumed)
      else if op.now >= ops[i].code.expires then answer == Rejected(CodeExpired)
      else answer == if op.db.Done? then Granted(ops[i].code) else Rejected(DbError)
  {
    NextAt(ops, i);
    CodesStay(ops, i + 1, j, ops[i].h, ops[i].code);
    ConsumedIsHistory(ops, j, ops[i].h);
  }
}
