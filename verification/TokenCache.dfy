/** Minted API tokens: the versioned store and the lookup cache in front of it. */
module TokenCache {
  import opened Basics
  import opened VersionedTable

  /** `expires` is in unix seconds; 0 means never. */
  datatype Minted = Minted(id: nat, user: nat, name: string, sites: seq<nat>, role: Role, expires: nat)

  datatype TokenRow = TokenRow(token: Minted, revoked: bool)

  datatype Found = Active(token: Minted) | Inactive | LookupFailed

  predicate Unexpired(token: Minted, now: nat) {
    token.expires == 0 || token.expires > Unix(now)
  }

  /** What the store answers for a hash at an instant. */
  function Answer(table: map<Hash, TokenRow>, h: Hash, now: nat): Found {
    if h in table && !table[h].revoked && Unexpired(table[h].token, now) then Active(table[h].token) else Inactive
  }

  /** A token is found exactly while its row is there, not revoked and not past its expiry. */
  lemma ActiveExactly(table: map<Hash, TokenRow>, h: Hash, now: nat)
    ensures Answer(table, h, now).Active? <==>
      h in table && !table[h].revoked && (table[h].token.expires == 0 || now / SECOND < table[h].token.expires)
    ensures Answer(table, h, now).Active? ==> Answer(table, h, now).token == table[h].token
    ensures !Answer(table, h, now).Active? ==> Answer(table, h, now).Inactive?
  {
  }

  /** Once inactive, a hash whose row does not change stays inactive. */
  lemma InactiveStays(table: map<Hash, TokenRow>, h: Hash, t: nat, u: nat)
    requires Answer(table, h, t).Inactive? && t <= u
    ensures Answer(table, h, u).Inactive?
  {
  }

  class TokenStore {
    var rows: seq<Row<Hash, TokenRow>>
    ghost var clock: nat  // the latest version written: versions are wall-clock readings

    ghost function Table(): map<Hash, TokenRow>
      reads this
    {
      LastWrites(rows)
    }

    /** Every token id belongs to one hash. */
    ghost predicate Valid()
      reads this
    {
      && Ascending(rows) && Bounded(rows, clock)
      && (forall a, b :: a in Table() && b in Table() && Table()[a].token.id == Table()[b].token.id ==> a == b)
    }

    constructor ()
      ensures Valid() && Table() == map[] && clock == 0
    {
      rows, clock := [], 0;
    }

    method Insert(h: Hash, row: TokenRow, now: nat, db: Insert) returns (ok: bool)
      requires Ascending(rows) && Bounded(rows, clock) && clock < now
      modifies this
      ensures Ascending(rows) && Bounded(rows, clock) && clock == now && ok == db.Done?
      ensures Table() == if db.Stores() then old(Table())[h := row] else old(Table())
    {
      if db.Stores() {
        AppendWins(rows, Row(h, row, now));
        rows := rows + [Row(h, row, now)];
      }
      clock := now;
      ok := db.Done?;
    }

    /** `h` and `id` are the fresh random token's hash and id; `now` is the wall clock. */
    method Create(h: Hash, id: nat, user: nat, name: string, sites: seq<nat>, role: Role, ttl: int, now: nat,
      db: Insert)
      returns (ok: bool)
      requires Valid() && clock < now
      requires h !in Table() && forall x <- Table() :: Table()[x].token.id != id
      modifies this
      ensures Valid() && clock <= now
      ensures ok == (user != 0 && sites != [] && db.Done?)
      ensures Table() ==
        if user != 0 && sites != [] && db.Stores()
        then old(Table())[h :=
          TokenRow(Minted(id, user, name, sites, role, if ttl > 0 then Unix(now + ttl) else 0), false)]
        else old(Table())
    {
      if user == 0 || |sites| == 0 {
        return false;
      }
      var expires := if ttl > 0 then Unix(now + ttl) else 0;
      ok := Insert(h, TokenRow(Minted(id, user, name, sites, role, expires), false), now, db);
    }

    method LookupActive(h: Hash, now: nat, up: bool) returns (r: Found)
      requires Valid()
      ensures r == if up then Answer(Table(), h, now) else LookupFailed
    {
      if !up {
        return LookupFailed;
      }
      FinalIsLastWrite(rows, h);
      var row := FinalRow(rows, h);
      if row.None? || row.value.val.revoked {
        return Inactive;
      }
      var token := row.value.val.token;
      if token.expires != 0 && token.expires <= Unix(now) {
        return Inactive;
      }
      r := Active(token);
    }

    /** The newest row of a token id, as the ORDER BY version DESC LIMIT 1 query returns it. */
    method FindById(id: nat) returns (r: Option<(Hash, TokenRow)>)
      requires Valid()
      ensures r.None? <==> NoToken(Table(), id)
      ensures r.Some? ==> r.value.0 in Table() && Table()[r.value.0] == r.value.1 && r.value.1.token.id == id
    {
      var table := LastWrites(rows);
      if h :| h in table && table[h].token.id == id {
        assert h in Table() && Table()[h].token.id == id;
        return Some((h, table[h]));
      }
      r := None;
    }

    /** Only the owner revokes; an unknown token and somebody else's look the same. */
    method Revoke(id: nat, user: nat, now: nat, up: bool, db: Insert) returns (ok: bool)
      requires Valid() && clock < now
      modifies this
      ensures Valid() && clock <= now
      ensures ok <==> up && exists h <- old(Table()) :: Revokes(old(Table())[h], id, user, db)
      ensures Table() == WithRevoked(old(Table()), id, user, up && db.Stores())
    {
      RevokeNothing(Table(), id, user);
      if !up {
        return false;
      }
      ghost var table := Table();
      var found := FindById(id);
      if found.None? {
        NobodysToken(table, id, user, db);
        return false;
      }
      var (h, row) := found.value;
      RevokeOne(table, h, user, db);
      if row.token.user != user {
        return false;
      }
      if row.revoked {
        return true;
      }
      ok := Insert(h, row.(revoked := true), now, db);
    }
  }

  /** The row makes a revocation report success. */
  predicate Revokes(row: TokenRow, id: nat, user: nat, db: Insert) {
    row.token.id == id && row.token.user == user && (row.revoked || db.Done?)
  }

  /** The table with the owner's token revoked, if that was stored. */
  function WithRevoked(table: map<Hash, TokenRow>, id: nat, user: nat, stored: bool): map<Hash, TokenRow> {
    map h <- table ::
      var row := table[h];
      if stored && row.token.id == id && row.token.user == user then row.(revoked := true) else row
  }

  ghost predicate NoToken(table: map<Hash, TokenRow>, id: nat) {
    forall h <- table :: table[h].token.id != id
  }

  lemma NobodysToken(table: map<Hash, TokenRow>, id: nat, user: nat, db: Insert)
    requires NoToken(table, id)
    ensures WithRevoked(table, id, user, true) == table && forall h <- table :: !Revokes(table[h], id, user, db)
  {
  }

  /** A revocation that is stored revokes the token of that id if it is that user's, and changes
      nothing else. */
  lemma RevokesExactly(table: map<Hash, TokenRow>, id: nat, user: nat, stored: bool, h: Hash)
    ensures var after := WithRevoked(table, id, user, stored);
      && (h in after <==> h in table)
      && (h in table ==> after[h].token == table[h].token)
      && (h in table ==>
            (after[h].revoked <==>
              table[h].revoked || (stored && table[h].token.id == id && table[h].token.user == user)))
  {
  }

  lemma RevokeNothing(table: map<Hash, TokenRow>, id: nat, user: nat)
    ensures WithRevoked(table, id, user, false) == table
  {
  }

  /** With one hash per id, a revocation concerns the one row found. */
  lemma RevokeOne(table: map<Hash, TokenRow>, h: Hash, user: nat, db: Insert)
    requires h in table
    requires forall a, b :: a in table && b in table && table[a].token.id == table[b].token.id ==> a == b
    ensures var row := table[h];
      && (if row.token.user != user || row.revoked then WithRevoked(table, row.token.id, user, true) == table
          else WithRevoked(table, row.token.id, user, true) == table[h := row.(revoked := true)])
      && ((exists x <- table :: Revokes(table[x], row.token.id, user, db)) <==> Revokes(row, row.token.id, user, db))
  {
  }

  datatype Cached = Cached(token: Minted, found: bool, expires: nat)

  class CachedTokens {
    const inner: TokenStore
    const ttl: nat
    var items: map<Hash, Cached>
    ghost var clock: nat       // the latest clock reading
    ghost var off: set<Hash>   // hashes whose entry may disagree with the store

    constructor (inner: TokenStore, ttl: int)
      requires inner.Valid()
      ensures this.inner == inner && this.ttl == (if ttl <= 0 then MINUTE else ttl)
      ensures Valid() && items == map[] && off == {} && clock == inner.clock
    {
      this.inner := inner;
      this.ttl := if ttl <= 0 then MINUTE else ttl;
      items := map[];
      clock := inner.clock;
      off := {};
    }

    /** The entry of h agrees with the store now and at any later time. */
    ghost predicate Exact(h: Hash)
      reads this, inner
    {
      h in items ==>
        if items[h].found
        then h in inner.Table() && inner.Table()[h] == TokenRow(items[h].token, false)
        else Answer(inner.Table(), h, clock).Inactive?
    }

    ghost predicate Valid()
      reads this, inner
    {
      && inner.Valid() && inner.clock <= clock
      && forall h :: h !in off ==> Exact(h)
    }

    /** With a monotone clock, the answer is the one the store gives at an instant of the call:
        the cache's reading on a hit, the store's own later reading on a miss, the token's own
        expiry included. */
    method LookupActive(h: Hash, now: nat, later: nat, up: bool) returns (r: Found)
      requires Valid() && clock <= now <= later
      modifies this
      ensures Valid() && clock == later && off <= old(off)
      ensures h !in old(off) ==>
        r == LookupFailed || r == Answer(inner.Table(), h, now) || r == Answer(inner.Table(), h, later)
      ensures h !in old(off) && now == later ==> r == LookupFailed || r == Answer(inner.Table(), h, now)
      ensures r == LookupFailed ==> !up
    {
      ghost var clock0 := clock;
      clock := later;
      forall x | x !in off ensures Exact(x) {
        assert old(Exact(x));
      }
      if h in items && now < items[h].expires {
        if !items[h].found {
          assert h !in off ==> old(Exact(h));
          return Inactive;
        }
        if items[h].token.expires == 0 || items[h].token.expires > Unix(now) {
          assert h !in off ==> old(Exact(h));
          return Active(items[h].token);
        }
        items := items - {h};
      }
      assert forall x :: x !in off ==> Exact(x);
      r := inner.LookupActive(h, later, up);
      if r.LookupFailed? {
        return;
      }
      ghost var before := items;
      items := items[h := Cached(if r.Active? then r.token else Minted(0, 0, "", [], Api, 0), r.Active?, now + ttl)];
      off := off - {h};
      forall x | x !in off ensures Exact(x) {
        assert x == h || (x in items <==> x in before);
      }
    }

    /** Minting passes straight through. Only a negative entry left by an earlier lookup of the
        same hash can come to disagree with the store. */
    method Create(h: Hash, id: nat, user: nat, name: string, sites: seq<nat>, role: Role, ttl: int, now: nat,
      db: Insert)
      returns (ok: bool)
      requires Valid() && clock < now
      requires h !in inner.Table() && forall x <- inner.Table() :: inner.Table()[x].token.id != id
      modifies this, inner
      ensures Valid() && items == old(items)
      ensures off == if h in items then old(off) + {h} else old(off)
    {
      assert forall x :: x !in off ==> Exact(x);
      if h in items {
        off := off + {h};
      }
      ok := inner.Create(h, id, user, name, sites, role, ttl, now, db);
      clock := now;
      forall x | x !in off ensures Exact(x) {
        assert old(Exact(x));
      }
    }

    /** A revocation that reports success is seen by the very next lookup, and no entry
        disagrees with the store any more. One that is stored but reported as failed can leave
        only the revoked token's own entry wrong. */
    method Revoke(id: nat, user: nat, now: nat, up: bool, db: Insert) returns (ok: bool)
      requires Valid() && clock < now
      modifies this, inner
      ensures Valid()
      ensures ok ==> items == map[] && off == {}
      ensures !ok ==> items == old(items)
      ensures !ok ==> off == old(off) + if db.DoneButReported? then Entries(old(items), old(inner.Table()), id) else {}
    {
      ghost var table := inner.Table();
      ok := inner.Revoke(id, user, now, up, db);
      clock := now;
      if ok {
        items := map[];
        off := {};
      } else {
        off := off + if db.DoneButReported? then Entries(items, table, id) else {};
      }
      forall x | x !in off ensures Exact(x) {
        assert !ok ==> old(Exact(x));
      }
    }

    /** The cached hashes of one token id: at most one. */
    ghost function Entries(items: map<Hash, Cached>, table: map<Hash, TokenRow>, id: nat): set<Hash> {
      set h <- items | h in table && table[h].token.id == id
    }
  }
}
