/** The write-through cache over per-user site grants. */
module SitesCache {
  import opened Basics

  type User = nat  // 0 is the nil user
  type Grants = map<Site, Role>

  datatype Loaded = Loaded(grants: Grants) | LoadFailed

  datatype Cached = Cached(grants: Grants, expires: int)

  /** The grant table, FINAL: active grants by user. */
  class SitesStore {
    var table: map<User, Grants>

    constructor ()
      ensures table == map[]
    {
      table := map[];
    }

    function Active(u: User): Grants
      reads this
    {
      if u in table then table[u] else map[]
    }

    method Load(u: User, up: bool) returns (r: Loaded)
      ensures r == if u == 0 || !up then LoadFailed else Loaded(Active(u))
    {
      if u == 0 || !up {
        return LoadFailed;
      }
      r := Loaded(Active(u));
    }

    method Grant(u: User, site: Site, role: Role, db: Insert) returns (ok: bool)
      modifies this
      ensures ok == (u != 0 && site != 0 && db.Done?)
      ensures Active(u) == if u != 0 && site != 0 && db.Stores() then old(Active(u))[site := role] else old(Active(u))
      ensures forall v :: v != u ==> Active(v) == old(Active(v))
    {
      if u == 0 || site == 0 {
        return false;
      }
      if db.Stores() {
        table := table[u := Active(u)[site := role]];
      }
      ok := db.Done?;
    }

    /** `up` is the outcome of reading the current grant; revoking nothing writes nothing. */
    method Revoke(u: User, site: Site, up: bool, db: Insert) returns (ok: bool)
      modifies this
      ensures ok == (u != 0 && site != 0 && up && (site in old(Active(u)) ==> db.Done?))
      ensures Active(u) == if u != 0 && site != 0 && up && db.Stores() then old(Active(u)) - {site} else old(Active(u))
      ensures forall v :: v != u ==> Active(v) == old(Active(v))
    {
      if u == 0 || site == 0 || !up {
        return false;
      }
      if site !in Active(u) {
        assert Active(u) - {site} == Active(u);
        return true;
      }
      if db.Stores() {
        table := table[u := Active(u) - {site}];
      }
      ok := db.Done?;
    }
  }

  class CachedSites {
    const inner: SitesStore
    const ttl: nat
    var items: map<User, Cached>
    ghost var off: set<User>  // users whose entry may disagree with the store

    constructor (inner: SitesStore, ttl: int)
      ensures this.inner == inner && items == map[] && off == {} && this.ttl == (if ttl <= 0 then MINUTE else ttl)
      ensures Valid()
    {
      this.inner := inner;
      this.ttl := if ttl <= 0 then MINUTE else ttl;
      items := map[];
      off := {};
    }

    /** The user's entry, fresh or not, holds what the inner store holds. */
    ghost predicate Exact(u: User)
      reads this, inner
    {
      u in items ==> items[u].grants == inner.Active(u)
    }

    ghost predicate Valid()
      reads this, inner
    {
      forall u :: u !in off ==> Exact(u)
    }

    /** Whatever the clock does, an answer for a user outside `off` is the inner store's current
        grants. It fails only when nothing fresh is cached and the inner store fails, and anything
        but a fresh entry makes the user's entry exact again. */
    method LoadUserSites(u: User, now: int, up: bool) returns (r: Loaded)
      requires Valid()
      modifies this
      ensures Valid()
      ensures u !in old(off) ==> r == LoadFailed || r == Loaded(inner.Active(u))
      ensures r == LoadFailed <==> !(u in old(items) && now < old(items)[u].expires) && (u == 0 || !up)
      ensures off == if u in old(items) && now < old(items)[u].expires then old(off) else old(off) - {u}
    {
      if u in items && now < items[u].expires {
        assert u !in off ==> Exact(u);
        return Loaded(items[u].grants);
      }
      off := off - {u};
      r := inner.Load(u, up);
      if r.LoadFailed? {
        items := items - {u};
      } else {
        items := items[u := Cached(r.grants, now + ttl)];
      }
      forall v | v !in off ensures Exact(v) {
        assert v != u ==> old(Exact(v));
      }
    }

    /** Only the user's own entry can come to disagree with the store, and only in one case: the
        insert is stored but reported as failed, so the entry is not dropped although the grants
        changed. */
    method Grant(u: User, site: Site, role: Role, db: Insert) returns (ok: bool)
      requires Valid()
      modifies this, inner
      ensures Valid()
      ensures ok == (u != 0 && site != 0 && db.Done?)
      ensures ok ==> inner.Active(u) == old(inner.Active(u))[site := role] && off == old(off) - {u}
      ensures !ok ==> off == old(off) + if u in items && inner.Active(u) != old(inner.Active(u)) then {u} else {}
      ensures !ok && u in items && inner.Active(u) != old(inner.Active(u)) ==> db.DoneButReported?
      ensures u !in old(off) ==> (Exact(u) <==> u !in off)
    {
      ok := inner.Grant(u, site, role, db);
      Settle(u, ok, old(inner.Active(u)));
      forall v | v !in off ensures Exact(v) {
        assert v != u ==> old(Exact(v));
        assert u !in old(off) ==> old(Exact(u));
      }
    }

    method Revoke(u: User, site: Site, up: bool, db: Insert) returns (ok: bool)
      requires Valid()
      modifies this, inner
      ensures Valid()
      ensures ok == (u != 0 && site != 0 && up && (site in old(inner.Active(u)) ==> db.Done?))
      ensures ok ==> site !in inner.Active(u) && off == old(off) - {u}
      ensures !ok ==> off == old(off) + if u in items && inner.Active(u) != old(inner.Active(u)) then {u} else {}
      ensures !ok && u in items && inner.Active(u) != old(inner.Active(u)) ==> db.DoneButReported?
      ensures u !in old(off) ==> (Exact(u) <==> u !in off)
    {
      ok := inner.Revoke(u, site, up, db);
      Settle(u, ok, old(inner.Active(u)));
      forall v | v !in off ensures Exact(v) {
        assert v != u ==> old(Exact(v));
        assert u !in old(off) ==> old(Exact(u));
      }
    }

    /** Drops the user's entry after a change that reported success. */
    method Settle(u: User, ok: bool, ghost before: Grants)
      modifies this
      ensures items == if ok then old(items) - {u} else old(items)
      ensures off ==
        if ok then old(off) - {u}
        else old(off) + if u in items && inner.Active(u) != before then {u} else {}
    {
      if ok {
        items := items - {u};
        off := off - {u};
      } else if u in items && inner.Active(u) != before {
        off := off + {u};
      }
    }
  }
}
