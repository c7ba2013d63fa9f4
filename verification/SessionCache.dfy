/** Dashboard sessions: the store, the session cache with its per-user index, and the cascade
    that closes a user's sessions after every privilege change. */
module SessionCache {
  import opened Basics

  datatype UserRow = UserRow(role: Role, disabled: bool)

  /** `expires` is in unix seconds, 0 for never. */
  datatype Session = Session(user: nat, role: Role, expires: nat, revoked: bool)

  datatype Info = Info(user: nat, row: UserRow, session: Session)

  datatype Why = NotFound | Revoked | Expired | Disabled | InvalidInput | Database
  datatype Lookup = Open(info: Info) | Denied(why: Why)

  type Users = map<nat, UserRow>
  type Sessions = map<Hash, Session>

  /** The store's verdict on a session hash at a unix time, in the order the code checks. */
  function Judge(users: Users, sessions: Sessions, h: Hash, t: nat): Lookup {
    if h !in sessions then Denied(NotFound)
    else
      var s := sessions[h];
      if s.revoked then Denied(Revoked)
      else if 0 < s.expires <= t then Denied(Expired)
      else if s.user !in users then Denied(NotFound)
      else if users[s.user].disabled then Denied(Disabled)
      else if users[s.user].role != s.role then Denied(Revoked)
      else Open(Info(s.user, users[s.user], s))
  }

  /** A session is open exactly when it is known, neither revoked nor expired, and its user exists,
      is enabled and still has its role; and it then comes with its own user. */
  lemma OpenExactly(users: Users, sessions: Sessions, h: Hash, t: nat)
    ensures Judge(users, sessions, h, t).Open? <==>
      && h in sessions && !sessions[h].revoked && (sessions[h].expires == 0 || t < sessions[h].expires)
      && sessions[h].user in users && !users[sessions[h].user].disabled
      && users[sessions[h].user].role == sessions[h].role
    ensures Judge(users, sessions, h, t).Open? ==>
      Judge(users, sessions, h, t).info == Info(sessions[h].user, users[sessions[h].user], sessions[h])
    ensures h in sessions && sessions[h].revoked ==> Judge(users, sessions, h, t) == Denied(Revoked)
    ensures h in sessions && !sessions[h].revoked && 0 < sessions[h].expires <= t ==>
      Judge(users, sessions, h, t) == Denied(Expired)
  {
  }

  /** A session that is refused stays refused as long as neither it nor its user changes. */
  lemma RefusalIsPermanent(users: Users, sessions: Sessions, h: Hash, t: nat, u: nat)
    requires Judge(users, sessions, h, t).Denied? && t <= u
    ensures Judge(users, sessions, h, u).Denied?
  {
  }

  /** And so it does when users disappear. */
  lemma FewerUsersRefuseMore(users: Users, gone: set<nat>, sessions: Sessions, h: Hash, t: nat)
    ensures Judge(users, sessions, h, t).Denied? ==> Judge(users - gone, sessions, h, t).Denied?
    ensures Blocking(users, sessions, h, t) ==> Blocking(users - gone, sessions, h, t)
  {
  }

  function OfUser(sessions: Sessions, user: nat): set<Hash> {
    set h <- sessions | sessions[h].user == user
  }

  function Unrevoked(sessions: Sessions, user: nat): set<Hash> {
    set h <- OfUser(sessions, user) | !sessions[h].revoked
  }

  function WithRevoked(sessions: Sessions, hs: set<Hash>): Sessions {
    map h <- sessions :: if h in hs then sessions[h].(revoked := true) else sessions[h]
  }

  lemma RevokedMore(sessions: Sessions, hs: set<Hash>, h: Hash)
    ensures WithRevoked(WithRevoked(sessions, hs), {h}) == WithRevoked(sessions, hs + {h})
  {
  }

  /** Revoking this session reports an error: it is neither revoked nor expired, but its user
      is gone or disabled. */
  predicate Blocking(users: Users, sessions: Sessions, h: Hash, t: nat) {
    && h in sessions && !sessions[h].revoked && !(0 < sessions[h].expires <= t)
    && (sessions[h].user !in users || users[sessions[h].user].disabled)
  }

  datatype Mutation = SetPassword | Disable | SetRole(role: Role) | Delete

  function Mutated(users: Users, user: nat, m: Mutation): Users
    requires m.Delete? || user in users
  {
    match m
    case SetPassword => users
    case Disable => users[user := users[user].(disabled := true)]
    case SetRole(role) => users[user := users[user].(role := role)]
    case Delete => users - {user}
  }

  /** A mutation changes the one thing it is for, of the one user it is for. */
  lemma MutatesExactly(users: Users, user: nat, m: Mutation)
    requires user in users
    ensures var after := Mutated(users, user, m);
      && (forall u :: u != user ==> (u in after <==> u in users) && (u in users ==> after[u] == users[u]))
      && (user in after <==> !m.Delete?)
      && (!m.Delete? ==> after[user].role == if m.SetRole? then m.role else users[user].role)
      && (!m.Delete? ==> after[user].disabled == (m.Disable? || users[user].disabled))
  {
  }

  /** The user rows after a mutation, and the deletions still to become visible. */
  function AfterMutation(users: Users, deleting: set<nat>, user: nat, m: Mutation, visible: bool): (Users, set<nat>)
    requires m.Delete? || user in users
  {
    if m.Delete? && !visible then (users, deleting + {user})
    else (Mutated(users, user, m), if m.Delete? then deleting else deleting - {user})
  }

  class AuthStore {
    var users: Users
    var sessions: Sessions
    var deleting: set<nat>  // users whose deletion was accepted but is not visible yet

    constructor (users: Users)
      ensures this.users == users && sessions == map[] && deleting == {}
    {
      this.users, this.sessions, this.deleting := users, map[], {};
    }

    /** The accepted deletions become visible, at a time the database chooses. */
    method Settle()
      modifies this`users, this`deleting
      ensures users == old(users) - old(deleting) && deleting == {}
    {
      users, deleting := users - deleting, {};
    }

    method LookupSession(h: Hash, t: nat, up: bool) returns (r: Lookup)
      ensures r == if up then Judge(users, sessions, h, t) else Denied(Database)
    {
      if !up {
        return Denied(Database);
      }
      r := Judge(users, sessions, h, t);
    }

    method CreateSession(h: Hash, s: Session, db: Insert) returns (ok: bool)
      modifies this`sessions
      ensures ok == (s.user != 0 && db.Done?)
      ensures sessions == if s.user != 0 && db.Stores() then old(sessions)[h := s] else old(sessions)
    {
      if s.user == 0 {
        return false;
      }
      if db.Stores() {
        sessions := sessions[h := s];
      }
      ok := db.Done?;
    }

    /** Looks the session up first: an expired or already refused one is left without a row. */
    method RevokeSession(h: Hash, t: nat, up: bool, db: Insert) returns (ok: bool)
      modifies this`sessions
      ensures sessions == old(sessions) || (h in old(sessions) && sessions == WithRevoked(old(sessions), {h}))
      ensures ok ==> up && Judge(users, sessions, h, t).Denied?
      ensures up && db.Done? && h in sessions ==> (ok <==> !Blocking(users, old(sessions), h, t))
      ensures up && Blocking(users, old(sessions), h, t) ==> !ok
    {
      var r := LookupSession(h, t, up);
      if r.Denied? {
        return r.why == Expired || r.why == Revoked;
      }
      if db.Stores() {
        sessions := WithRevoked(sessions, {h});
      }
      ok := db.Done?;
    }

    /** How far the loop over a user's sessions has come: `hs` have been given a revoked row,
        all of `done` are refused, and pending deletions may have become visible. */
    ghost predicate Revoking(before: Sessions, users0: Users, gone: set<nat>, done: set<Hash>, hs: set<Hash>, t: nat)
      reads this
    {
      && sessions == WithRevoked(before, hs)
      && ((users == users0 && deleting == gone) || (users == users0 - gone && deleting == {}))
      && forall h <- done :: Judge(users, sessions, h, t).Denied?
    }

    /** One turn of the loop. */
    method RevokeNext(h: Hash, t: nat, up: bool, db: Insert, settles: bool,
                      ghost before: Sessions, ghost users0: Users, ghost gone: set<nat>,
                      ghost done: set<Hash>, ghost hs: set<Hash>)
      returns (ok: bool, ghost hs2: set<Hash>)
      requires Revoking(before, users0, gone, done, hs, t) && h in before && h !in hs
      modifies this
      ensures hs <= hs2 <= hs + {h}
      ensures Revoking(before, users0, gone, if ok then done + {h} else done, hs2, t)
      ensures !settles ==> users == old(users) && deleting == old(deleting)
      ensures up && db.Done? ==> if ok then !Blocking(users0, before, h, t) else Blocking(users, before, h, t)
    {
      if settles {
        SettleKeepsRefusals(done, t);
        Settle();
      }
      ghost var mid := sessions;
      assert mid[h] == before[h];
      FewerUsersRefuseMore(users0, gone, before, h, t);
      ok := RevokeSession(h, t, up, db);
      hs2 := if sessions == mid then hs else hs + {h};
      RevokedMore(before, hs, h);
    }

    /** `ups`, `dbs` and `settles` are what happens around the k-th session: the outcomes of its
        read and insert, and whether pending deletions become visible before it. With a healthy
        database the loop succeeds if no session blocks at its end, and only if none blocked at
        its start; the two are the same unless a deletion became visible meanwhile. */
    method RevokeAllUserSessions(user: nat, t: nat, up: bool, ups: nat -> bool, dbs: nat -> Insert,
      settles: nat -> bool)
      returns (ok: bool)
      modifies this
      ensures users == old(users) || users == old(users) - old(deleting)
      ensures (forall k: nat :: !settles(k)) ==> users == old(users) && deleting == old(deleting)
      ensures exists hs :: hs <= OfUser(old(sessions), user) && sessions == WithRevoked(old(sessions), hs)
      ensures ok ==> forall h <- OfUser(old(sessions), user) :: Judge(users, sessions, h, t).Denied?
      ensures up && (forall k: nat :: ups(k) && dbs(k).Done?) ==>
        && (ok ==> forall h <- OfUser(old(sessions), user) :: !Blocking(old(users), old(sessions), h, t))
        && (!ok ==> exists h <- OfUser(old(sessions), user) :: Blocking(users, old(sessions), h, t))
    {
      ghost var before, users0, gone := sessions, users, deleting;
      assert WithRevoked(before, {}) == before;
      if !up {
        return false;
      }
      var left := Unrevoked(sessions, user);
      ghost var done: set<Hash> := {};
      ghost var hs: set<Hash> := {};
      var k := 0;
      while left != {}
        invariant done + left == Unrevoked(before, user) && done !! left && hs <= done
        invariant Revoking(before, users0, gone, done, hs, t)
        invariant (forall j: nat :: !settles(j)) ==> users == users0 && deleting == gone
        invariant (forall j: nat :: ups(j) && dbs(j).Done?) ==> forall h <- done :: !Blocking(users0, before, h, t)
      {
        var h :| h in left;
        ok, hs := RevokeNext(h, t, ups(k), dbs(k), settles(k), before, users0, gone, done, hs);
        if !ok {
          return false;
        }
        left := left - {h};
        done := done + {h};
        k := k + 1;
      }
      ok := true;
    }

    lemma SettleKeepsRefusals(done: set<Hash>, t: nat)
      requires forall h <- done :: Judge(users, sessions, h, t).Denied?
      ensures forall h <- done :: Judge(users - deleting, sessions, h, t).Denied?
    {
      forall h <- done ensures Judge(users - deleting, sessions, h, t).Denied? {
        FewerUsersRefuseMore(users, deleting, sessions, h, t);
      }
    }

    /** UpdateUserPassword, DisableUser, ChangeRole and DeleteUser of the bare store. A deletion is
        asynchronous: `visible` says whether the row is gone when the call returns. A row written
        later survives an earlier deletion. */
    method Mutate(user: nat, m: Mutation, up: bool, db: Insert, visible: bool) returns (ok: bool)
      modifies this`users, this`deleting
      ensures ok ==> user != 0 && (m.Delete? || user in old(users))
      ensures (users, deleting) == (old(users), old(deleting)) ||
        ((m.Delete? || user in old(users)) &&
          (users, deleting) == AfterMutation(old(users), old(deleting), user, m, visible))
      ensures ok ==> (users, deleting) == AfterMutation(old(users), old(deleting), user, m, visible)
      ensures !ok && !db.DoneButReported? ==> (users, deleting) == (old(users), old(deleting))
      ensures up && db.Done? && user != 0 && user in old(users) ==> ok
    {
      if user == 0 || (!m.Delete? && (!up || user !in users)) {
        return false;
      }
      if db.Stores() {
        if !m.Delete? {
          users, deleting := Mutated(users, user, m), deleting - {user};
        } else if visible {
          users := users - {user};
        } else {
          deleting := deleting + {user};
        }
      }
      ok := db.Done?;
    }
  }

  datatype Cached = Cached(info: Info, expires: nat)

  class CachedSessions {
    const inner: AuthStore
    const ttl: nat
    var items: map<Hash, Cached>
    var index: map<nat, set<Hash>>

    /** Every cached session is in its user's index entry, under the user the store has for it. */
    ghost predicate Valid()
      reads this, inner
    {
      && (forall h <- items ::
            && items[h].info.user in index && h in index[items[h].info.user]
            && h in inner.sessions && inner.sessions[h].user == items[h].info.user)
      && (forall u <- index :: forall h <- index[u] :: h in inner.sessions && inner.sessions[h].user == u)
    }

    constructor (inner: AuthStore, ttl: int)
      ensures this.inner == inner && this.ttl == (if ttl <= 0 then MINUTE else ttl)
      ensures Valid() && items == map[] && index == map[]
    {
      this.inner := inner;
      this.ttl := if ttl <= 0 then MINUTE else ttl;
      items, index := map[], map[];
    }

    method Prime(h: Hash, info: Info, expires: nat)
      requires Valid() && h in inner.sessions && inner.sessions[h].user == info.user
      modifies this`items, this`index
      ensures Valid() && items == old(items)[h := Cached(info, expires)]
    {
      items := items[h := Cached(info, expires)];
      var set0 := if info.user in index then index[info.user] else {};
      index := index[info.user := set0 + {h}];
    }

    /** A fresh entry answers; otherwise the store does, and its answer is cached or dropped. */
    method LookupSession(h: Hash, now: nat, later: nat, up: bool) returns (r: Lookup)
      requires Valid() && now <= later
      modifies this`items, this`index
      ensures Valid()
      ensures h in old(items) && now < old(items)[h].expires ==> r == Open(old(items)[h].info) && items == old(items)
      ensures !(h in old(items) && now < old(items)[h].expires) ==>
        && r == (if up then Judge(inner.users, inner.sessions, h, Unix(later)) else Denied(Database))
        && items == if r.Open? then old(items)[h := Cached(r.info, now + ttl)] else old(items) - {h}
    {
      if h in items && now < items[h].expires {
        return Open(items[h].info);
      }
      r := inner.LookupSession(h, Unix(later), up);
      if r.Denied? {
        items := items - {h};
        return;
      }
      Prime(h, r.info, now + ttl);
    }

    /** The new session's hash is fresh; `now` is read after the store has answered. The entry is
        primed without looking at the user's state: it is the store's own answer exactly when the
        user is enabled and still has the session's role, and the session is open. */
    method CreateSession(h: Hash, s: Session, db: Insert, up: bool, now: nat) returns (ok: bool)
      requires Valid() && h !in inner.sessions
      modifies this`items, this`index, inner`sessions
      ensures Valid()
      ensures ok <==> s.user != 0 && db.Done? && up && s.user in inner.users
      ensures ok ==> inner.sessions == old(inner.sessions)[h := s]
      ensures ok ==> items == old(items)[h := Cached(Info(s.user, inner.users[s.user], s), now + ttl)]
      ensures ok ==> forall t: nat ::
        Judge(inner.users, inner.sessions, h, t) == Open(items[h].info) <==>
          !inner.users[s.user].disabled && inner.users[s.user].role == s.role && !s.revoked && !(0 < s.expires <= t)
      ensures !ok ==> items == old(items)
    {
      ok := inner.CreateSession(h, s, db);
      if !ok {
        return;
      }
      if !up || s.user !in inner.users {
        return false;
      }
      Prime(h, Info(s.user, inner.users[s.user], s), now + ttl);
    }

    method RevokeSession(h: Hash, now: nat, up: bool, db: Insert) returns (ok: bool)
      requires Valid()
      modifies this`items, this`index, inner`sessions
      ensures Valid() && items == old(items) - {h}
      ensures ok ==> Judge(inner.users, inner.sessions, h, Unix(now)).Denied?
    {
      if h in items {
        var user := items[h].info.user;
        index := index[user := index[user] - {h}];
      }
      items := items - {h};
      ok := inner.RevokeSession(h, Unix(now), up, db);
    }

    /** Takes the given sessions out of the cache, in whatever order the set is iterated. */
    method DropAll(hashes: set<Hash>)
      modifies this`items
      ensures items == old(items) - hashes
    {
      var left := hashes;
      while left != {}
        invariant left <= hashes
        invariant items == old(items) - (hashes - left)
      {
        var h :| h in left;
        items := items - {h};
        left := left - {h};
      }
    }

    /** By the index invariant, the user's index entry covers every cached session of theirs. */
    lemma IndexCovers(user: nat, hashes: set<Hash>)
      requires Valid() && hashes == (if user in index then index[user] else {})
      ensures items - hashes == map h <- items | items[h].info.user != user :: items[h]
    {
      forall h <- items ensures items[h].info.user == user <==> h in hashes {
      }
    }

    /** Drops every cached session of the user, whatever the store then reports. */
    method RevokeAllUserSessions(user: nat, now: nat, up: bool, ups: nat -> bool, dbs: nat -> Insert,
      settles: nat -> bool)
      returns (ok: bool)
      requires Valid()
      modifies this`items, this`index, inner
      ensures Valid() && inner.sessions.Keys == old(inner.sessions).Keys
      ensures inner.users == old(inner.users) || inner.users == old(inner.users) - old(inner.deleting)
      ensures (forall k: nat :: !settles(k)) ==>
        inner.users == old(inner.users) && inner.deleting == old(inner.deleting)
      ensures items == map h <- old(items) | old(items)[h].info.user != user :: old(items)[h]
      ensures ok ==> forall h <- OfUser(old(inner.sessions), user) ::
        Judge(inner.users, inner.sessions, h, Unix(now)).Denied?
      ensures up && (forall k: nat :: ups(k) && dbs(k).Done?) ==>
        && (ok ==> forall h <- OfUser(old(inner.sessions), user) ::
              !Blocking(old(inner.users), old(inner.sessions), h, Unix(now)))
        && (!ok ==> exists h <- OfUser(old(inner.sessions), user) ::
              Blocking(inner.users, old(inner.sessions), h, Unix(now)))
    {
      var hashes := if user in index then index[user] else {};
      IndexCovers(user, hashes);
      DropAll(hashes);
      index := index - {user};
      assert Valid();
      ghost var sessions := inner.sessions;
      ok := inner.RevokeAllUserSessions(user, Unix(now), up, ups, dbs, settles);
      ghost var hs :| hs <= OfUser(sessions, user) && inner.sessions == WithRevoked(sessions, hs);
    }

    /** The four privilege changes, whether a deletion is visible at once, during the revocations
        or only later. When one reports success, every session the user had is out of the cache
        and refused by the store now and at any later time, so the next lookup of any of them
        fails. Whatever it reports, once the change itself was accepted the cache serves none of
        them. */
    method Cascade(user: nat, m: Mutation, now: nat, userUp: bool, db: Insert, visible: bool,
                   up: bool, ups: nat -> bool, dbs: nat -> Insert, settles: nat -> bool)
      returns (ok: bool)
      requires Valid()
      modifies this`items, this`index, inner
      ensures Valid() && inner.sessions.Keys == old(inner.sessions).Keys
      ensures ok ==> user != 0 && (m.Delete? || user in old(inner.users))
      ensures ok ==> forall h <- OfUser(old(inner.sessions), user) ::
        h !in items && Judge(inner.users, inner.sessions, h, Unix(now)).Denied?
      ensures userUp && db.Done? && user != 0 && user in old(inner.users) ==>
        var (users, deleting) := AfterMutation(old(inner.users), old(inner.deleting), user, m, visible);
        && (inner.users == users || inner.users == users - deleting)
        && (forall h <- OfUser(old(inner.sessions), user) :: h !in items)
        && (up && (forall k: nat :: ups(k) && dbs(k).Done? && !settles(k)) ==>
              (ok <==> Unblocked(users, old(inner.sessions), user, Unix(now))))
    {
      ok := inner.Mutate(user, m, userUp, db, visible);
      if !ok {
        return;
      }
      ok := RevokeAllUserSessions(user, now, up, ups, dbs, settles);
    }
  }

  /** No session of the user makes the revocations report an error. */
  ghost predicate Unblocked(users: Users, sessions: Sessions, user: nat, t: nat) {
    forall h <- OfUser(sessions, user) :: !Blocking(users, sessions, h, t)
  }

  /** With a healthy database, changing the password or the role of an enabled user always reports
      success, and so does deleting one while the row is still visible. Disabling a user, or
      deleting one whose row is gone at once, reports success exactly when every session of
      theirs is already revoked or expired, although the sessions are refused either way. */
  lemma WhenTheCascadeReportsSuccess(users: Users, deleting: set<nat>, sessions: Sessions, user: nat, m: Mutation,
                                     visible: bool, t: nat)
    requires user in users && !users[user].disabled
    ensures var after := AfterMutation(users, deleting, user, m, visible).0;
      Unblocked(after, sessions, user, t) <==>
        || m.SetPassword? || m.SetRole? || (m.Delete? && !visible)
        || forall h <- OfUser(sessions, user) :: sessions[h].revoked || 0 < sessions[h].expires <= t
    ensures var after := AfterMutation(users, deleting, user, m, visible).0;
      m.Disable? || (m.Delete? && visible) ==>
        forall h <- OfUser(sessions, user) :: Judge(after, sessions, h, t).Denied?
  {
    var after := AfterMutation(users, deleting, user, m, visible).0;
    forall h <- OfUser(sessions, user)
      ensures Blocking(after, sessions, h, t) <==>
        (m.Disable? || (m.Delete? && visible)) && !sessions[h].revoked && !(0 < sessions[h].expires <= t)
    {
    }
  }

  /** A login that overlaps with the disabling of its user: the session is created after the
      cascade, and the cache serves it although the store refuses it. */
  method DisabledUserIsServed(h: Hash, now: nat) returns (served: Lookup, verdict: Lookup)
    ensures served.Open? && verdict == Denied(Disabled)
  {
    var store := new AuthStore(map[1 := UserRow(Viewer, false)]);
    var cache := new CachedSessions(store, MINUTE);
    var ok := cache.Cascade(1, Disable, now, true, Done, true, true, k => true, k => Done, k => false);
    ok := cache.CreateSession(h, Session(1, Viewer, 0, false), Done, true, now);
    served := cache.LookupSession(h, now, now, true);
    verdict := store.LookupSession(h, Unix(now), true);
  }
}
