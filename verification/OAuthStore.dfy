/** The authorization server's store: single-use codes and rotating refresh families over two
    versioned tables. */
module OAuthStore {
  import opened Basics
  import opened VersionedTable

  datatype Grant = Grant(client: string, user: nat, scope: string, audience: string, sites: seq<nat>)
  datatype AuthCode = AuthCode(grant: Grant, redirect: string, challenge: string, expires: int)
  datatype CodeRow = CodeRow(code: AuthCode, consumed: bool)
  datatype RefreshToken = RefreshToken(grant: Grant, family: nat, expires: int)
  datatype RefreshRow = RefreshRow(token: RefreshToken, rotated: bool, revoked: bool)

  type Codes = map<Hash, CodeRow>
  type Tokens = map<Hash, RefreshRow>

  datatype Error = CodeNotFound | CodeConsumed | CodeExpired | RefreshInvalid | RefreshExpired | RefreshReused | DbError
  datatype Result<+T> = Ok(value: T) | Err(error: Error)

  /** Revoking a family is a loop of inserts that stops at the first error: `reached` are the
      members whose row was written, `all` says the loop finished. */
  datatype Sweep = Sweep(reached: set<Hash>, all: bool)

  /** `up` is the outcome of the SELECT, `db` that of the INSERT. */
  function Consume(codes: Codes, h: Hash, now: int, up: bool, db: Insert): (Codes, Result<AuthCode>) {
    if !up then (codes, Err(DbError))
    else if h !in codes then (codes, Err(CodeNotFound))
    else if codes[h].consumed then (codes, Err(CodeConsumed))
    else if now >= codes[h].code.expires then (codes, Err(CodeExpired))
    else
      (if db.Stores() then codes[h := codes[h].(consumed := true)] else codes,
       if db.Done? then Ok(codes[h].code) else Err(DbError))
  }

  function Members(tokens: Tokens, family: nat): set<Hash> {
    set h <- tokens | tokens[h].token.family == family && !tokens[h].revoked
  }

  function WithRevoked(tokens: Tokens, hs: set<Hash>): Tokens {
    map h <- tokens :: if h in hs then tokens[h].(revoked := true) else tokens[h]
  }

  lemma RevokeOneMore(tokens: Tokens, reached: set<Hash>, h: Hash)
    requires h in tokens && h !in reached
    ensures WithRevoked(tokens, reached)[h := tokens[h].(revoked := true)] == WithRevoked(tokens, reached + {h})
    ensures WithRevoked(tokens, reached)[h] == tokens[h]
  {
  }

  predicate Suspicious(row: RefreshRow, client: string) {
    row.rotated || row.revoked || row.token.grant.client != client
  }

  /** `up` is the outcome of reading the presented token, `mark` and `add` those of writing it as
      rotated and of writing its successor. */
  function Rotate(tokens: Tokens, presented: Hash, successor: Hash, client: string, now: int,
                  up: bool, mark: Insert, add: Insert, sweep: Sweep)
    : (Tokens, Result<RefreshToken>)
  {
    if !up then (tokens, Err(DbError))
    else if presented !in tokens then (tokens, Err(RefreshInvalid))
    else
      var row := tokens[presented];
      if Suspicious(row, client) then
        var all := Members(tokens, row.token.family);
        if sweep.all then (WithRevoked(tokens, all), Err(RefreshReused))
        else (WithRevoked(tokens, all * sweep.reached), Err(DbError))
      else if now >= row.token.expires then (tokens, Err(RefreshExpired))
      else
        var marked := if mark.Stores() then tokens[presented := row.(rotated := true)] else tokens;
        if !mark.Done? then (marked, Err(DbError))
        else
          (if add.Stores() then marked[successor := RefreshRow(row.token, false, false)] else marked,
           if add.Done? then Ok(row.token) else Err(DbError))
  }

  /** The store over its append-only tables. Its methods are the map functions above, seen
      through FINAL; every mutation is one more row with a fresh version. */
  class Store {
    var codes: seq<Row<Hash, CodeRow>>
    var tokens: seq<Row<Hash, RefreshRow>>
    var version: nat

    ghost predicate Valid()
      reads this
    {
      && Ascending(codes) && Bounded(codes, version)
      && Ascending(tokens) && Bounded(tokens, version)
    }

    /** Opens the store over existing tables. The version source is seeded from the clock,
        which has to be ahead of every stored version. */
    constructor Open(codes: seq<Row<Hash, CodeRow>>, tokens: seq<Row<Hash, RefreshRow>>, seed: nat)
      requires Ascending(codes) && Bounded(codes, seed) && Ascending(tokens) && Bounded(tokens, seed)
      ensures Valid() && this.codes == codes && this.tokens == tokens
    {
      this.codes, this.tokens, this.version := codes, tokens, seed;
    }

    method NextVersion() returns (v: nat)
      modifies this`version
      ensures v == version == old(version) + 1
    {
      version := version + 1;
      v := version;
    }

    method InsertCode(h: Hash, row: CodeRow, db: Insert) returns (ok: bool)
      requires Valid()
      modifies this`codes, this`version
      ensures Valid() && ok == db.Done?
      ensures LastWrites(codes) == if db.Stores() then LastWrites(old(codes))[h := row] else LastWrites(old(codes))
    {
      var v := NextVersion();
      if db.Stores() {
        AppendWins(codes, Row(h, row, v));
        codes := codes + [Row(h, row, v)];
      }
      ok := db.Done?;
    }

    method InsertToken(h: Hash, row: RefreshRow, db: Insert) returns (ok: bool)
      requires Valid()
      modifies this`tokens, this`version
      ensures Valid() && ok == db.Done?
      ensures LastWrites(tokens) == if db.Stores() then LastWrites(old(tokens))[h := row] else LastWrites(old(tokens))
    {
      var v := NextVersion();
      if db.Stores() {
        AppendWins(tokens, Row(h, row, v));
        tokens := tokens + [Row(h, row, v)];
      }
      ok := db.Done?;
    }

    method SaveAuthCode(h: Hash, code: AuthCode, db: Insert) returns (ok: bool)
      requires Valid()
      modifies this`codes, this`version
      ensures Valid() && ok == db.Done?
      ensures LastWrites(codes) ==
        if db.Stores() then LastWrites(old(codes))[h := CodeRow(code, false)] else LastWrites(old(codes))
    {
      ok := InsertCode(h, CodeRow(code, false), db);
    }

    method ConsumeAuthCode(h: Hash, now: int, up: bool, db: Insert) returns (r: Result<AuthCode>)
      requires Valid()
      modifies this`codes, this`version
      ensures Valid()
      ensures (LastWrites(codes), r) == Consume(LastWrites(old(codes)), h, now, up, db)
    {
      if !up {
        return Err(DbError);
      }
      FinalIsLastWrite(codes, h);
      var found := FinalRow(codes, h);
      if found.None? {
        return Err(CodeNotFound);
      }
      var row := found.value.val;
      if row.consumed {
        return Err(CodeConsumed);
      }
      if now >= row.code.expires {
        return Err(CodeExpired);
      }
      var ok := InsertCode(h, CodeRow(row.code, true), db);
      if !ok {
        return Err(DbError);
      }
      r := Ok(row.code);
    }

    method SaveRefreshToken(h: Hash, token: RefreshToken, db: Insert) returns (ok: bool)
      requires Valid()
      modifies this`tokens, this`version
      ensures Valid() && ok == db.Done?
      ensures LastWrites(tokens) ==
        if db.Stores() then LastWrites(old(tokens))[h := RefreshRow(token, false, false)] else LastWrites(old(tokens))
    {
      ok := InsertToken(h, RefreshRow(token, false, false), db);
    }

    /** The hashes a FINAL scan of the family returns, in whatever order the rows come. */
    method FamilyMembers(family: nat) returns (hs: seq<Hash>)
      requires Valid()
      ensures (set h <- hs) == Members(LastWrites(tokens), family)
      ensures forall i, j :: 0 <= i < j < |hs| ==> hs[i] != hs[j]
    {
      hs := [];
      var left := Members(LastWrites(tokens), family);
      ghost var all := left;
      while left != {}
        invariant (set h <- hs) + left == all && (set h <- hs) !! left
        invariant forall i, j :: 0 <= i < j < |hs| ==> hs[i] != hs[j]
      {
        var h :| h in left;
        left := left - {h};
        hs := hs + [h];
      }
    }

    /** `up` is the outcome of reading the members, `outcome(k)` what the insert for the k-th does. */
    method RevokeFamily(family: nat, up: bool, outcome: nat -> Insert) returns (ok: bool, ghost reached: set<Hash>)
      requires Valid()
      modifies this`tokens, this`version
      ensures Valid()
      ensures LastWrites(tokens) ==
        WithRevoked(LastWrites(old(tokens)), Members(LastWrites(old(tokens)), family) * reached)
      ensures ok ==> Members(LastWrites(old(tokens)), family) <= reached
    {
      reached := {};
      if !up {
        return false, {};
      }
      var hs := FamilyMembers(family);
      ghost var before := LastWrites(tokens);
      assert WithRevoked(before, {}) == before;
      for k := 0 to |hs|
        invariant Valid()
        invariant reached <= Members(before, family)
        invariant forall i :: 0 <= i < |hs| ==> (hs[i] in reached <==> i < k)
        invariant LastWrites(tokens) == WithRevoked(before, reached)
      {
        var h := hs[k];
        assert h in Members(before, family);
        RevokeOneMore(before, reached, h);
        FinalIsLastWrite(tokens, h);
        var row := FinalRow(tokens, h).value.val;
        var done := InsertToken(h, row.(revoked := true), outcome(k));
        if outcome(k).Stores() {
          reached := reached + {h};
        }
        if !done {
          assert Members(before, family) * reached == reached;
          return false, reached;
        }
      }
      assert Members(before, family) * reached == reached;
      assert forall h <- hs :: h in reached;
      ok := true;
    }

    /** `outcomes` are the environment's choices; the sweep of the map function is whatever
        the loop of inserts reached. */
    method RotateRefreshToken(presented: Hash, successor: Hash, client: string, now: int,
                              up: bool, mark: Insert, add: Insert, familyUp: bool, outcome: nat -> Insert)
      returns (r: Result<RefreshToken>, ghost sweep: Sweep)
      requires Valid()
      modifies this`tokens, this`version
      ensures Valid()
      ensures (LastWrites(tokens), r) ==
        Rotate(LastWrites(old(tokens)), presented, successor, client, now, up, mark, add, sweep)
    {
      sweep := Sweep({}, true);
      if !up {
        return Err(DbError), sweep;
      }
      FinalIsLastWrite(tokens, presented);
      var found := FinalRow(tokens, presented);
      if found.None? {
        return Err(RefreshInvalid), sweep;
      }
      var row := found.value.val;
      if row.rotated || row.revoked || row.token.grant.client != client {
        var ok, reached := RevokeFamily(row.token.family, familyUp, outcome);
        sweep := Sweep(reached, ok);
        if !ok {
          return Err(DbError), sweep;
        }
        assert Members(LastWrites(old(tokens)), row.token.family) * reached ==
          Members(LastWrites(old(tokens)), row.token.family);
        return Err(RefreshReused), sweep;
      }
      if now >= row.token.expires {
        return Err(RefreshExpired), sweep;
      }
      var marked := InsertToken(presented, row.(rotated := true), mark);
      if !marked {
        return Err(DbError), sweep;
      }
      var added := InsertToken(successor, RefreshRow(row.token, false, false), add);
      if !added {
        return Err(DbError), sweep;
      }
      r := Ok(row.token);
    }
  }
}
