/** api/security_handler.go: changes to accounts, and what they do to the sessions of the account. */
module Accounts {
  import opened Common
  import opened Sessions
  import Protocol

  /** What of an account its stamp is made from. */
  datatype AccountState = AccountState(passwordHash: string, role: string, active: bool, superOwner: bool)

  datatype Status = Updated | NotFound | Forbidden | Refused

  /** A change asked for: an empty password or role, or no flag, leaves that part as it is. */
  datatype Change = Change(password: string, role: string, active: Option<bool>)

  predicate IsOwner(s: Session) { s.role == "owner" }

  predicate IsAdmin(s: Session) { s.role == "owner" || s.role == "admin" }

  function NewRole(target: AccountState, c: Change): string { if c.role == "" then target.role else c.role }

  /** Owners change every account; admins all but owners' and to all but owner; anyone their own password. */
  predicate MayChange(caller: Session, isSelf: bool, target: AccountState, c: Change) {
    if IsOwner(caller) then true
    else if IsAdmin(caller) then target.role != "owner" && NewRole(target, c) != "owner"
    else isSelf && NewRole(target, c) == target.role && c.active.None?
  }

  /** The account after the change; `hash` is that of the new password. */
  function Changed(target: AccountState, c: Change, hash: string): AccountState {
    target.(passwordHash := if c.password != "" then hash else target.passwordHash, role := NewRole(target, c),
            active := if c.active.Some? then c.active.value else target.active)
  }

  predicate Deactivates(c: Change) { c.active == Some(false) }

  /** A change after which the account is to be signed in nowhere else. */
  predicate EndsSessions(target: AccountState, c: Change) {
    c.password != "" || NewRole(target, c) != target.role || Deactivates(c)
  }

  /** Who changes their own password stays signed in where they did it. */
  predicate KeepsOwn(isSelf: bool, target: AccountState, c: Change) {
    isSelf && !Deactivates(c) && NewRole(target, c) == target.role
  }

  /** The key of the session that is kept. */
  function KeptKey(isSelf: bool, target: AccountState, c: Change, token: string,
                   digest: string -> string): Option<string> {
    if KeepsOwn(isSelf, target, c) && token != "" then Some(digest(token)) else None
  }

  class Server {
    const store: Store
    const stampOf: AccountState -> string
    var accounts: map<(string, string), AccountState>

    constructor (store: Store, stampOf: AccountState -> string, accounts: map<(string, string), AccountState>)
      ensures this.store == store && this.stampOf == stampOf && this.accounts == accounts
    {
      this.store, this.stampOf, this.accounts := store, stampOf, accounts;
    }

    /** UpdateUser; `refused` when the change itself does not go through, `readable` when the
        new stamp can be read for the session that is kept. */
    method UpdateUser(caller: Session, token: string, id: string, c: Change, hash: string,
                      refused: bool, readable: bool) returns (status: Status)
      modifies `accounts, store`sessions
      ensures status == UpdateStatus(caller, id, old(accounts), c, refused)
      ensures status != Updated ==> accounts == old(accounts) && store.sessions == old(store.sessions)
      ensures status == Updated ==>
        var key := (caller.database, id);
        var target := old(accounts)[key];
        && accounts == old(accounts)[key := Changed(target, c, hash)]
        && store.sessions == UpdatedSessions(old(store.sessions), caller, token, id, target, c, store.digest,
                                             if readable then Some(stampOf(accounts[key])) else None)
    {
      var key := (caller.database, id);
      if key !in accounts {
        return NotFound;
      }
      var target := accounts[key];
      var role := c.role;
      if role == "" {
        role := target.role;
      }
      var isSelf := caller.userId == id;
      if IsOwner(caller) {
      } else if IsAdmin(caller) {
        if target.role == "owner" || role == "owner" {
          return Forbidden;
        }
      } else if isSelf {
        if role != target.role || c.active.Some? {
          return Forbidden;
        }
      } else {
        return Forbidden;
      }
      if refused {
        return Refused;
      }
      accounts := accounts[key := Changed(target, c, hash)];
      var deactivated := c.active.Some? && !c.active.value;
      if c.password != "" || role != target.role || deactivated {
        var keep := "";
        if isSelf && !deactivated && role == target.role {
          keep := token;
        }
        store.RevokeUser(caller.database, id, keep);
        if keep != "" && readable {
          store.Restamp(keep, stampOf(accounts[key]));
        }
      }
      return Updated;
    }

    /** DeleteUser. */
    method DeleteUser(caller: Session, id: string, refused: bool) returns (status: Status)
      modifies `accounts, store`sessions
      ensures status == DeleteStatus(caller, id, old(accounts), refused)
      ensures status != Updated ==> accounts == old(accounts) && store.sessions == old(store.sessions)
      ensures status == Updated ==>
        accounts == old(accounts) - {(caller.database, id)}
        && store.sessions == WithoutUser(old(store.sessions), caller.database, id, "")
    {
      var key := (caller.database, id);
      if key !in accounts {
        return NotFound;
      }
      if id == caller.userId {
        return Refused;
      }
      if accounts[key].role == "owner" && !IsOwner(caller) {
        return Forbidden;
      }
      if refused {
        return Refused;
      }
      accounts := accounts - {key};
      store.RevokeUser(caller.database, id, "");
      return Updated;
    }

    /** SetSuperOwner. */
    method SetSuperOwner(caller: Session, id: string, superOwner: bool, refused: bool) returns (status: Status)
      modifies `accounts, store`sessions
      ensures status == SuperStatus(caller, id, old(accounts), superOwner, refused)
      ensures status != Updated ==> accounts == old(accounts) && store.sessions == old(store.sessions)
      ensures status == Updated ==>
        var key := (caller.database, id);
        && accounts == old(accounts)[key := old(accounts)[key].(superOwner := superOwner)]
        && store.sessions == WithoutUser(old(store.sessions), caller.database, id, "")
    {
      var key := (caller.database, id);
      if key !in accounts {
        return NotFound;
      }
      if superOwner && accounts[key].role != "owner" {
        return Refused;
      }
      if caller.userId == id && !superOwner {
        return Forbidden;
      }
      if refused {
        return Refused;
      }
      accounts := accounts[key := accounts[key].(superOwner := superOwner)];
      store.RevokeUser(caller.database, id, "");
      return Updated;
    }
  }

  function UpdateStatus(caller: Session, id: string, accounts: map<(string, string), AccountState>, c: Change,
                        refused: bool): (s: Status)
    ensures s == Updated ==> (caller.database, id) in accounts
  {
    var key := (caller.database, id);
    if key !in accounts then NotFound
    else if !MayChange(caller, caller.userId == id, accounts[key], c) then Forbidden
    else if refused then Refused else Updated
  }

  function DeleteStatus(caller: Session, id: string, accounts: map<(string, string), AccountState>,
                        refused: bool): (s: Status)
    ensures s == Updated ==> (caller.database, id) in accounts && id != caller.userId
  {
    var key := (caller.database, id);
    if key !in accounts then NotFound
    else if id == caller.userId then Refused
    else if accounts[key].role == "owner" && !IsOwner(caller) then Forbidden
    else if refused then Refused else Updated
  }

  function SuperStatus(caller: Session, id: string, accounts: map<(string, string), AccountState>, superOwner: bool,
                       refused: bool): (s: Status)
    ensures s == Updated ==> (caller.database, id) in accounts
    ensures s == Updated && superOwner ==> accounts[(caller.database, id)].role == "owner"
  {
    var key := (caller.database, id);
    if key !in accounts then NotFound
    else if superOwner && accounts[key].role != "owner" then Refused
    else if caller.userId == id && !superOwner then Forbidden
    else if refused then Refused else Updated
  }

  /** The sessions left when an account has changed: none of its own but the one kept, which
      carries the new stamp if that could be read. */
  function EndedFor(m: Sessions, database: string, id: string, keep: Option<string>, stamp: Option<string>): Sessions {
    var left := WithoutUser(m, database, id, if keep.Some? then keep.value else "");
    if keep.Some? && keep.value in left && stamp.Some? then
      left[keep.value := left[keep.value].(stamp := stamp.value)]
    else left
  }

  /** The sessions left by an update that has gone through; `stamp` is the new one, if it can be read. */
  function UpdatedSessions(m: Sessions, caller: Session, token: string, id: string, target: AccountState, c: Change,
                           digest: string -> string, stamp: Option<string>): Sessions {
    if EndsSessions(target, c) then
      EndedFor(m, caller.database, id, KeptKey(caller.userId == id, target, c, token, digest), stamp)
    else m
  }

  // ─── Who may do what, and what it does ───

  /** The account as it is asked to be. */
  predicate AsAsked(target: AccountState, c: Change, hash: string, after: AccountState) {
    && after.passwordHash == (if |c.password| > 0 then hash else target.passwordHash)
    && after.role == (if |c.role| > 0 then c.role else target.role)
    && after.active == (match c.active case None => target.active case Some(b) => b)
    && after.superOwner == target.superOwner
  }

  /** An owner changes any account, an admin any that is no owner's and becomes none, and everyone
      else the password of their own. */
  predicate Entitled(caller: Session, id: string, target: AccountState, after: AccountState, c: Change) {
    || caller.role == "owner"
    || (caller.role == "admin" && "owner" !in {target.role, after.role})
    || (caller.role != "admin" && caller.userId == id && after.role == target.role && c.active == None)
  }

  /** An update goes through exactly if there is such an account, the caller is entitled to it and
      nothing refuses it, and it makes of the account what was asked. */
  lemma UpdateMeans(caller: Session, id: string, accounts: map<(string, string), AccountState>, c: Change,
                    hash: string, refused: bool, after: AccountState)
    requires (caller.database, id) in accounts ==> AsAsked(accounts[(caller.database, id)], c, hash, after)
    ensures var key, status := (caller.database, id), UpdateStatus(caller, id, accounts, c, refused);
      if key !in accounts then status == NotFound
      else
        && after == Changed(accounts[key], c, hash)
        && status == if !Entitled(caller, id, accounts[key], after, c) then Forbidden
                     else if refused then Refused else Updated
  {
  }

  /** What ends the sessions of an account: a new password, another role, or that it is inactive. */
  predicate Unsettling(target: AccountState, after: AccountState, c: Change) {
    |c.password| > 0 || after.role != target.role || c.active == Some(false)
  }

  /** The caller's own session, from which they change their own password and nothing that ends it. */
  predicate OwnSession(caller: Session, token: string, id: string, target: AccountState, after: AccountState,
                       c: Change, digest: string -> string, key: string)
  {
    && caller.userId == id && after.role == target.role && c.active != Some(false)
    && |token| > 0 && key == digest(token)
  }

  /** Of the sessions of the account an unsettling update leaves the caller's own, under the new
      stamp if it can be read, and no other; of all other sessions, and of any other update, it
      leaves everything. */
  lemma UpdateEnds(m: Sessions, caller: Session, token: string, id: string, target: AccountState, c: Change,
                   hash: string, after: AccountState, digest: string -> string, stamp: Option<string>, key: string)
    requires key in m && key != "" && AsAsked(target, c, hash, after)
    ensures var left := UpdatedSessions(m, caller, token, id, target, c, digest, stamp);
      var own := OwnSession(caller, token, id, target, after, c, digest, key);
      if !Unsettling(target, after, c) then key in left && left[key] == m[key]
      else if m[key].database == caller.database && m[key].userId == id && !own then key !in left
      else key in left && left[key] == if own && stamp.Some? then m[key].(stamp := stamp.value) else m[key]
  {
  }

  /** Anyone but oneself can be deleted, an owner by owners alone. */
  lemma DeleteMeans(caller: Session, id: string, accounts: map<(string, string), AccountState>, refused: bool)
    ensures var key, status := (caller.database, id), DeleteStatus(caller, id, accounts, refused);
      && (status == NotFound <==> key !in accounts)
      && (status == Updated <==>
          && key in accounts && id != caller.userId && !refused
          && (accounts[key].role == "owner" ==> caller.role == "owner"))
      && (status == Forbidden <==>
          key in accounts && id != caller.userId && accounts[key].role == "owner" && caller.role != "owner")
  {
  }

  /** Owners alone can be made super-owners, and no one takes it from themselves. */
  lemma SuperMeans(caller: Session, id: string, accounts: map<(string, string), AccountState>, superOwner: bool,
                   refused: bool)
    ensures var key, status := (caller.database, id), SuperStatus(caller, id, accounts, superOwner, refused);
      && (status == NotFound <==> key !in accounts)
      && (status == Updated <==>
          key in accounts && !refused && if superOwner then accounts[key].role == "owner" else id != caller.userId)
      && (status == Forbidden <==> key in accounts && !superOwner && id == caller.userId)
  {
  }

  /** The session would pass a request now. */
  predicate WouldPass(m: Sessions, key: string, now: Moment, stamp: Answer) {
    key in m && Live(m[key], now) && stamp == Stamped(m[key].stamp)
  }

  /** After a change that ends sessions, a session of the account passes exactly if it is the
      one kept, has not expired and was given the new stamp, or carried it already; no other
      session changes. */
  lemma ChangeEndsSessions(m: Sessions, database: string, id: string, keep: Option<string>, stamp: string,
                           readable: bool, key: string, now: Moment)
    requires key in m && key != ""
    ensures var after := EndedFor(m, database, id, keep, if readable then Some(stamp) else None);
      if m[key].database == database && m[key].userId == id then
        WouldPass(after, key, now, Stamped(stamp)) <==>
          keep == Some(key) && Live(m[key], now) && (readable || m[key].stamp == stamp)
      else key in after && (keep != Some(key) ==> after[key] == m[key])
  {
  }

  // ─── The handlers as steps of the protocol ───

  function ChangeSteps(a: Protocol.Account, key: string, stamp: string): seq<Protocol.Step> {
    [Protocol.ChangeAccount(a, stamp), Protocol.RevokeUser(a, key)]
  }

  function KeepSteps(key: string, t: nat): seq<Protocol.Step> {
    [Protocol.ReadToKeep(t, key), Protocol.Restamp(t)]
  }

  function KeyOr(keep: Option<string>): string { if keep.Some? then keep.value else "" }

  function UpdateSteps(a: Protocol.Account, keep: Option<string>, stamp: string, readable: bool,
                       t: nat): seq<Protocol.Step> {
    ChangeSteps(a, KeyOr(keep), stamp) + if keep.Some? && readable then KeepSteps(keep.value, t) else []
  }

  /** SetSuperOwner is these two steps, with no session kept. */
  lemma ChangedAndRevoked(w: Protocol.World, a: Protocol.Account, key: string, stamp: string)
    returns (after: Protocol.World)
    requires Protocol.Exists(w, a)
    ensures Protocol.CanTake(w, ChangeSteps(a, key, stamp)) && after == Protocol.Taken(w, ChangeSteps(a, key, stamp))
    ensures after.sessions == WithoutUser(w.sessions, a.database, a.userId, key)
    ensures Protocol.Exists(after, a) && Protocol.Current(after, a) == stamp
    ensures after.threads == w.threads && after.accepted == w.accepted && after.issued == w.issued
  {
    var first, second := Protocol.ChangeAccount(a, stamp), Protocol.RevokeUser(a, key);
    Protocol.TakeTwo(w, first, second);
    hide Protocol.CanTake, Protocol.Taken;
    after := Protocol.Next(Protocol.Next(w, first), second);
  }

  lemma ReadAndRestamped(w: Protocol.World, a: Protocol.Account, key: string, stamp: string, t: nat)
    returns (after: Protocol.World)
    requires Protocol.Exists(w, a) && Protocol.Current(w, a) == stamp && t !in w.threads
    requires key in w.accepted && key in w.issued && w.issued[key] == a
    ensures Protocol.CanTake(w, KeepSteps(key, t)) && after == Protocol.Taken(w, KeepSteps(key, t))
    ensures after.sessions ==
      if key in w.sessions then w.sessions[key := w.sessions[key].(stamp := stamp)] else w.sessions
    ensures Protocol.Exists(after, a) && Protocol.Current(after, a) == stamp && after.threads == w.threads
  {
    var first, second := Protocol.ReadToKeep(t, key), Protocol.Restamp(t);
    var w1 := Protocol.Next(w, first);
    assert w1.threads[t] == Protocol.Keeping(key, stamp, Protocol.Version(w, a));
    Protocol.TakeTwo(w, first, second);
    hide Protocol.CanTake, Protocol.Taken;
    after := Protocol.Next(w1, second);
    assert w1.threads - {t} == w.threads;
  }

  /** UpdateUser with nothing in between is four steps of the protocol, or the first two of them
      where no session is kept or its stamp is not read: they leave the same sessions, and the
      account with the new stamp. Only the kept session of the account is left, and where its
      stamp was read it passes as long as it lives. */
  lemma UpdateIsSteps(w: Protocol.World, a: Protocol.Account, keep: Option<string>, stamp: string,
                      readable: bool, t: nat)
    requires Protocol.Exists(w, a) && t !in w.threads && "" !in w.sessions
    requires keep.Some? ==> keep.value in w.accepted && keep.value in w.issued && w.issued[keep.value] == a
    ensures var steps := UpdateSteps(a, keep, stamp, readable, t);
      && Protocol.CanTake(w, steps)
      && var after := Protocol.Taken(w, steps);
      && after.sessions == EndedFor(w.sessions, a.database, a.userId, keep, if readable then Some(stamp) else None)
      && Protocol.Exists(after, a) && Protocol.Current(after, a) == stamp && after.threads == w.threads
      && (forall k :: k in after.sessions && Protocol.AccountOf(after.sessions[k]) == a ==> keep == Some(k))
      && (readable ==> forall k :: k in after.sessions && Protocol.AccountOf(after.sessions[k]) == a ==>
          after.sessions[k].stamp == stamp)
  {
    hide Protocol.Enabled, Protocol.Next, Protocol.CanTake, Protocol.Taken;
    var w2 := ChangedAndRevoked(w, a, KeyOr(keep), stamp);
    if keep.Some? && readable {
      var _ := ReadAndRestamped(w2, a, keep.value, stamp, t);
      Protocol.TakeBoth(w, ChangeSteps(a, KeyOr(keep), stamp), KeepSteps(keep.value, t));
    } else {
      assert ChangeSteps(a, KeyOr(keep), stamp) + [] == ChangeSteps(a, KeyOr(keep), stamp);
    }
  }

  /** DeleteUser is two steps: the account goes, then its sessions, and none of it is left. */
  lemma DeleteIsSteps(w: Protocol.World, a: Protocol.Account)
    requires Protocol.Exists(w, a) && "" !in w.sessions
    ensures var steps := [Protocol.DeleteAccount(a), Protocol.RevokeUser(a, "")];
      && Protocol.CanTake(w, steps)
      && var after := Protocol.Taken(w, steps);
      && after.sessions == WithoutUser(w.sessions, a.database, a.userId, "") && Protocol.Ask(after, a) == NoAccount
      && forall k :: k in after.sessions ==> Protocol.AccountOf(after.sessions[k]) != a
  {
    Protocol.TakeTwo(w, Protocol.DeleteAccount(a), Protocol.RevokeUser(a, ""));
    hide Protocol.CanTake, Protocol.Taken;
    assert a in Protocol.Next(w, Protocol.DeleteAccount(a)).gone;
  }
}
