/** auth/session.go and api/auth.go: the store of sessions and the check every request passes. */
module Sessions {
  import opened Common

  datatype Session = Session(
    userId: string, username: string, role: string, database: string, superOwner: bool,
    createdAt: Moment, lastSeenAt: Moment, expiresAt: Moment,
    clientIp: string, webContainer: string, userAgent: string, requests: int, stamp: string)

  /** Sessions by the digest of their token. */
  type Sessions = map<string, Session>

  /** Who signs in: what Create is told. */
  datatype Identity = Identity(
    userId: string, username: string, role: string, database: string, stamp: string, superOwner: bool)

  predicate Live(s: Session, now: Moment) { now < s.expiresAt }

  /** Some of the sessions, unchanged. */
  ghost predicate SomeOf(part: Sessions, m: Sessions) { forall k :: k in part ==> k in m && part[k] == m[k] }

  function Pruned(m: Sessions, now: Moment): (r: Sessions)
    ensures SomeOf(r, m)
  {
    map k | k in m && Live(m[k], now) :: m[k]
  }

  function NewSession(who: Identity, now: Moment, ttl: int): Session {
    Session(who.userId, who.username, who.role, who.database, who.superOwner, now, now, now + ttl,
            "", "", "", 1, who.stamp)
  }

  function Extended(s: Session, now: Moment, ttl: int): Session { s.(lastSeenAt := now, expiresAt := now + ttl) }

  function Touched(s: Session, now: Moment, clientIp: string, webContainer: string, userAgent: string): Session {
    s.(lastSeenAt := now, requests := s.requests + 1,
       clientIp := if clientIp != "" then clientIp else s.clientIp,
       webContainer := if webContainer != "" then webContainer else s.webContainer,
       userAgent := if userAgent != "" then userAgent else s.userAgent)
  }

  function WithoutUser(m: Sessions, database: string, userId: string, keep: string): (r: Sessions)
    ensures SomeOf(r, m)
  {
    map k | k in m && Spared(k, m[k], database, userId, keep) :: m[k]
  }

  predicate Spared(key: string, s: Session, database: string, userId: string, keep: string) {
    key == keep || s.database != database || s.userId != userId
  }

  function WithoutDatabase(m: Sessions, database: string): (r: Sessions)
    ensures SomeOf(r, m)
  {
    map k | k in m && m[k].database != database :: m[k]
  }

  /** What reading a session does to the store: an expired one goes, a live one lives on. */
  function AfterGet(m: Sessions, key: string, now: Moment, ttl: int): Sessions {
    if key !in m then m else if Live(m[key], now) then m[key := Extended(m[key], now, ttl)] else m - {key}
  }

  function Gotten(m: Sessions, key: string, now: Moment, ttl: int): Option<Session> {
    if key in m && Live(m[key], now) then Some(Extended(m[key], now, ttl)) else None
  }

  class Store {
    const ttl: int
    const digest: string -> string
    var sessions: Sessions

    constructor (ttl: int, digest: string -> string)
      ensures this.ttl == (if ttl <= 0 then 43200000000000 else ttl) && this.digest == digest && sessions == map[]
    {
      this.ttl, this.digest, sessions := if ttl <= 0 then 43200000000000 else ttl, digest, map[];
    }

    /** pruneLocked. */
    method Prune(now: Moment)
      modifies `sessions
      ensures sessions == Pruned(old(sessions), now)
      ensures forall k :: k in sessions <==> k in old(sessions) && now < old(sessions)[k].expiresAt
      ensures forall k :: k in sessions ==> sessions[k] == old(sessions)[k]
    {
      var todo := sessions.Keys;
      while todo != {}
        invariant todo <= old(sessions).Keys
        invariant sessions ==
          map k | k in old(sessions) && (k in todo || Live(old(sessions)[k], now)) :: old(sessions)[k]
        decreases |todo|
      {
        var key :| key in todo;
        if !Live(sessions[key], now) {
          sessions := sessions - {key};
        }
        todo := todo - {key};
      }
    }

    method Create(token: string, who: Identity, now: Moment) returns (s: Session)
      modifies `sessions
      ensures s == NewSession(who, now, ttl)
      ensures s.createdAt == s.lastSeenAt == now && s.expiresAt == now + ttl && s.requests == 1
      ensures Identity(s.userId, s.username, s.role, s.database, s.stamp, s.superOwner) == who
      ensures sessions == Pruned(old(sessions), now)[digest(token) := s]
    {
      Prune(now);
      s := NewSession(who, now, ttl);
      sessions := sessions[digest(token) := s];
    }

    method TouchMeta(token: string, now: Moment, clientIp: string, webContainer: string, userAgent: string)
      modifies `sessions
      ensures var key := digest(token);
        sessions == if token == "" || key !in old(sessions) then old(sessions)
                    else old(sessions)[key := Touched(old(sessions)[key], now, clientIp, webContainer, userAgent)]
    {
      var key := digest(token);
      if token == "" || key !in sessions {
        return;
      }
      var s := sessions[key];
      s := s.(lastSeenAt := now, requests := s.requests + 1);
      if clientIp != "" {
        s := s.(clientIp := clientIp);
      }
      if webContainer != "" {
        s := s.(webContainer := webContainer);
      }
      if userAgent != "" {
        s := s.(userAgent := userAgent);
      }
      sessions := sessions[key := s];
    }

    method Get(token: string, now: Moment) returns (s: Option<Session>)
      modifies `sessions
      ensures token == "" ==> s.None? && sessions == old(sessions)
      ensures s.Some? <==> token != "" && digest(token) in old(sessions) && now < old(sessions)[digest(token)].expiresAt
      ensures s.Some? ==>
        s.value == old(sessions)[digest(token)].(lastSeenAt := now, expiresAt := now + ttl)
        && sessions == old(sessions)[digest(token) := s.value]
      ensures token != "" && s.None? ==> sessions == old(sessions) - {digest(token)}
      ensures token != "" ==>
        s == Gotten(old(sessions), digest(token), now, ttl)
        && sessions == AfterGet(old(sessions), digest(token), now, ttl)
    {
      if token == "" {
        return None;
      }
      var key := digest(token);
      if key !in sessions {
        return None;
      }
      if !(now < sessions[key].expiresAt) {
        sessions := sessions - {key};
        return None;
      }
      sessions := sessions[key := Extended(sessions[key], now, ttl)];
      return Some(sessions[key]);
    }

    method Restamp(token: string, stamp: string)
      modifies `sessions
      ensures var key := digest(token);
        sessions == if token == "" || key !in old(sessions) then old(sessions)
                    else old(sessions)[key := old(sessions)[key].(stamp := stamp)]
    {
      if token != "" && digest(token) in sessions {
        sessions := sessions[digest(token) := sessions[digest(token)].(stamp := stamp)];
      }
    }

    method Revoke(token: string)
      modifies `sessions
      ensures sessions == if token == "" then old(sessions) else old(sessions) - {digest(token)}
    {
      if token != "" {
        sessions := sessions - {digest(token)};
      }
    }

    method RevokeUser(database: string, userId: string, exceptToken: string)
      modifies `sessions
      ensures sessions ==
        WithoutUser(old(sessions), database, userId, if exceptToken == "" then "" else digest(exceptToken))
    {
      var keep := "";
      if exceptToken != "" {
        keep := digest(exceptToken);
      }
      var todo := sessions.Keys;
      while todo != {}
        invariant todo <= old(sessions).Keys
        invariant sessions ==
          map k | k in old(sessions) && (k in todo || Spared(k, old(sessions)[k], database, userId, keep))
          :: old(sessions)[k]
        decreases |todo|
      {
        var key :| key in todo;
        var s := sessions[key];
        if key != keep && s.database == database && s.userId == userId {
          sessions := sessions - {key};
        }
        todo := todo - {key};
      }
    }

    method RevokeDatabase(database: string)
      modifies `sessions
      ensures sessions == WithoutDatabase(old(sessions), database)
    {
      var todo := sessions.Keys;
      while todo != {}
        invariant todo <= old(sessions).Keys
        invariant sessions ==
          map k | k in old(sessions) && (k in todo || old(sessions)[k].database != database) :: old(sessions)[k]
        decreases |todo|
      {
        var key :| key in todo;
        if sessions[key].database == database {
          sessions := sessions - {key};
        }
        todo := todo - {key};
      }
    }
  }

  /** What the database says about the account of a session. */
  datatype Answer = Unreachable | NoAccount | Stamped(stamp: string)

  datatype Attached = Passed(session: Session) | Rejected | DatabaseDown

  datatype Origin = Origin(clientIp: string, webContainer: string, userAgent: string)

  /** attach, when nothing else happens in between: a request passes exactly with a live
      session whose stamp is the account's. */
  method Attach(store: Store, token: string, now: Moment, account: (string, string) -> Answer, origin: Origin)
    returns (r: Attached)
    modifies store`sessions
    ensures var found := if token == "" then None else Gotten(old(store.sessions), store.digest(token), now, store.ttl);
      var key := store.digest(token);
      var got := AfterGet(old(store.sessions), key, now, store.ttl);
      match found
      case None => r == Rejected && store.sessions == if token == "" then old(store.sessions) else got
      case Some(s) =>
        match account(s.database, s.userId)
        case Unreachable => r == DatabaseDown && store.sessions == got
        case NoAccount => r == Rejected && store.sessions == got - {key}
        case Stamped(stamp) =>
          if stamp == s.stamp then
            r == Passed(s)
            && store.sessions == got[key := Touched(s, now, origin.clientIp, origin.webContainer, origin.userAgent)]
          else r == Rejected && store.sessions == got - {key}
    ensures r.Passed? ==>
      var key := store.digest(token);
      && token != "" && key in old(store.sessions) && key in store.sessions
      && var before, after := old(store.sessions)[key], store.sessions[key];
      && now < before.expiresAt && account(before.database, before.userId) == Stamped(before.stamp)
      && after.expiresAt == now + store.ttl && after.lastSeenAt == now && after.requests == before.requests + 1
    ensures r.Rejected? && token != "" ==> store.digest(token) !in store.sessions
  {
    if token == "" {
      return Rejected;
    }
    var s := store.Get(token, now);
    if s.None? {
      return Rejected;
    }
    var answer := account(s.value.database, s.value.userId);
    if answer.Unreachable? {
      return DatabaseDown;
    }
    if answer.NoAccount? || answer.stamp != s.value.stamp {
      store.Revoke(token);
      return Rejected;
    }
    store.TouchMeta(token, now, origin.clientIp, origin.webContainer, origin.userAgent);
    return Passed(s.value);
  }
}
