/**
 * How long a session lives, over whole runs of the protocol: told by the steps that open, read
 * and revoke sessions and the moments they are taken at, and by nothing the store keeps.
 */
module Lifetimes {
  import opened Common
  import opened Sessions
  import opened Protocol

  // ─── What can be seen of a run ───

  /** The step opens the session, or is a request that reads it and finds it. */
  predicate Uses(w: World, step: Step, w': World, key: string) {
    || (step.OpenSession? && step.key == key)
    || (step.ReadSession? && step.key == key && step.t in w'.threads)
  }

  /** The step revokes the session, if it is there: by its key, its account, its database, or by
      a request that was told another stamp than the session's, or of no account. */
  predicate Ends(w: World, step: Step, key: string) {
    match step
    case Revoke(k) => k == key
    case RevokeUser(a, keep) => keep != key && key in w.issued && w.issued[key] == a
    case RevokeDatabase(database) => key in w.issued && w.issued[key].database == database
    case Decide(t, _) =>
      && t in w.threads && w.threads[t].Compared? && w.threads[t].key == key
      && (match w.threads[t].answer
          case Unreachable => false
          case NoAccount => true
          case Stamped(stamp) => stamp != w.threads[t].session.stamp)
    case _ => false
  }

  ghost predicate UsedAt(worlds: seq<World>, steps: seq<Step>, u: int, key: string)
    requires |worlds| == |steps| + 1
  {
    0 <= u < |steps| && Uses(worlds[u], steps[u], worlds[u + 1], key)
  }

  ghost predicate EndedAt(worlds: seq<World>, steps: seq<Step>, e: int, key: string)
    requires |worlds| == |steps| + 1
  {
    0 <= e < |steps| && Ends(worlds[e], steps[e], key)
  }

  /** Before `i` the session was last used at `u`, and has not been revoked since. */
  ghost predicate LastUsed(worlds: seq<World>, steps: seq<Step>, u: int, i: int, key: string)
    requires |worlds| == |steps| + 1
  {
    && u < i && UsedAt(worlds, steps, u, key)
    && forall n :: u < n < i ==> !UsedAt(worlds, steps, n, key) && !EndedAt(worlds, steps, n, key)
  }

  /** The session was last used less than a lifetime before `i` and has not been revoked since. */
  ghost predicate InTime(worlds: seq<World>, steps: seq<Step>, i: int, key: string)
    requires |worlds| == |steps| + 1 && 0 <= i < |worlds|
  {
    exists u :: LastUsed(worlds, steps, u, i, key) && worlds[i].now < worlds[u].now + worlds[i].ttl
  }

  // ─── One step ───

  lemma StepUses(w: World, step: Step, key: string)
    requires Enabled(w, step) && Uses(w, step, Next(w, step), key)
    ensures var w' := Next(w, step); key in w'.sessions && w'.sessions[key].expiresAt == w.now + w.ttl
    ensures step.ReadSession? ==> key in w.sessions && w.now < w.sessions[key].expiresAt
  {
    hide VersionsAfter, StampsAfter, IssuedAfter, LateAfter, AcceptedAfter, Pruned;
  }

  /** Only a use puts off the end of a session, and what has been revoked is not there. */
  lemma StepLeaves(w: World, step: Step, key: string)
    requires Sound(w) && Enabled(w, step) && !Uses(w, step, Next(w, step), key)
    requires key in Next(w, step).sessions
    ensures key in w.sessions && Next(w, step).sessions[key].expiresAt == w.sessions[key].expiresAt
    ensures !Ends(w, step, key)
  {
    hide VersionsAfter, StampsAfter, IssuedAfter, LateAfter, AcceptedAfter;
    if key in w.sessions { assert SessionSound(w, key, w.sessions[key], w.versions[key]); }
  }

  lemma StepKeeps(w: World, step: Step, key: string)
    requires Sound(w) && Enabled(w, step) && !Ends(w, step, key)
    requires key in w.sessions && w.now < w.sessions[key].expiresAt
    ensures key in Next(w, step).sessions
    ensures step.ReadSession? && step.key == key ==> Uses(w, step, Next(w, step), key)
  {
    hide StampsAfter, IssuedAfter, LateAfter, AcceptedAfter;
    assert SessionSound(w, key, w.sessions[key], w.versions[key]);
  }

  lemma StepTime(w: World, step: Step)
    requires Enabled(w, step)
    ensures w.now <= Next(w, step).now && Next(w, step).ttl == w.ttl
  {
    hide SessionsAfter, VersionsAfter, ThreadsAfter, StampsAfter, IssuedAfter, LateAfter, AcceptedAfter;
  }

  lemma MissedRead(w: World, step: Step, key: string)
    requires Enabled(w, step) && step.ReadSession? && step.key == key
    requires key in w.sessions ==> w.sessions[key].expiresAt <= w.now
    ensures key !in Next(w, step).sessions && !Uses(w, step, Next(w, step), key)
  {
  }

  // ─── Runs ───

  lemma {:induction false} TimePasses(worlds: seq<World>, steps: seq<Step>, i: nat, j: nat)
    requires IsRun(worlds, steps) && i <= j < |worlds|
    ensures worlds[i].now <= worlds[j].now && worlds[i].ttl == worlds[j].ttl
  {
    if i < j {
      hide Next, Enabled, Initial;
      TimePasses(worlds, steps, i, j - 1);
      assert Follows(worlds, steps, j - 1);
      StepTime(worlds[j - 1], steps[j - 1]);
    }
  }

  lemma LastUsedOn(worlds: seq<World>, steps: seq<Step>, u: int, i: nat, key: string)
    requires |worlds| == |steps| + 1 && LastUsed(worlds, steps, u, i, key)
    requires !UsedAt(worlds, steps, i, key) && !EndedAt(worlds, steps, i, key)
    ensures LastUsed(worlds, steps, u, i + 1, key)
  {
  }

  /** The session is in the store and lives to a lifetime after its last use. */
  ghost predicate StoredInTime(worlds: seq<World>, steps: seq<Step>, i: nat, key: string)
    requires |worlds| == |steps| + 1 && i < |worlds|
  {
    key in worlds[i].sessions && exists u ::
      LastUsed(worlds, steps, u, i, key) && worlds[i].sessions[key].expiresAt == worlds[u].now + worlds[i].ttl
  }

  lemma {:induction false} StoredWasUsed(worlds: seq<World>, steps: seq<Step>, i: nat, key: string)
    requires IsRun(worlds, steps) && i < |worlds| && key in worlds[i].sessions
    ensures StoredInTime(worlds, steps, i, key)
  {
    if i > 0 {
      assert Follows(worlds, steps, i - 1);
      var w, step := worlds[i - 1], steps[i - 1];
      hide Next, Enabled, Initial, Sound, Uses, Ends, StoredInTime, LastUsed;
      StepTime(w, step);
      if UsedAt(worlds, steps, i - 1, key) {
        StepUses(w, step, key);
        StoredNow(worlds, steps, i - 1, key);
      } else {
        RunSound(worlds, steps, i - 1);
        StepLeaves(w, step, key);
        StoredWasUsed(worlds, steps, i - 1, key);
        NotEnded(worlds, steps, i - 1, key);
        StoredStill(worlds, steps, i - 1, key);
      }
    }
  }

  lemma StoredNow(worlds: seq<World>, steps: seq<Step>, i: nat, key: string)
    requires |worlds| == |steps| + 1 && UsedAt(worlds, steps, i, key) && worlds[i + 1].ttl == worlds[i].ttl
    requires key in worlds[i + 1].sessions
    requires worlds[i + 1].sessions[key].expiresAt == worlds[i].now + worlds[i].ttl
    ensures StoredInTime(worlds, steps, i + 1, key)
  {
    JustUsed(worlds, steps, i, key);
    hide UsedAt, LastUsed;
  }

  lemma StoredStill(worlds: seq<World>, steps: seq<Step>, i: nat, key: string)
    requires |worlds| == |steps| + 1 && i < |steps| && StoredInTime(worlds, steps, i, key)
    requires !UsedAt(worlds, steps, i, key) && !EndedAt(worlds, steps, i, key) && worlds[i + 1].ttl == worlds[i].ttl
    requires key in worlds[i + 1].sessions
    requires worlds[i + 1].sessions[key].expiresAt == worlds[i].sessions[key].expiresAt
    ensures StoredInTime(worlds, steps, i + 1, key)
  {
    hide Uses, Ends;
    var u :| LastUsed(worlds, steps, u, i, key) &&
      worlds[i].sessions[key].expiresAt == worlds[u].now + worlds[i].ttl;
    LastUsedOn(worlds, steps, u, i, key);
  }

  lemma JustUsed(worlds: seq<World>, steps: seq<Step>, u: nat, key: string)
    requires |worlds| == |steps| + 1 && UsedAt(worlds, steps, u, key)
    ensures LastUsed(worlds, steps, u, u + 1, key)
  {
    hide Uses, Ends;
  }

  lemma NotEnded(worlds: seq<World>, steps: seq<Step>, e: nat, key: string)
    requires |worlds| == |steps| + 1 && e < |steps| && !Ends(worlds[e], steps[e], key)
    ensures !EndedAt(worlds, steps, e, key)
  {
  }

  /** A session last used less than a lifetime ago and not revoked since is in the store. */
  lemma {:induction false} UsedIsStored(worlds: seq<World>, steps: seq<Step>, u: nat, i: nat, key: string)
    requires IsRun(worlds, steps) && i < |worlds| && LastUsed(worlds, steps, u, i, key)
    requires worlds[i].now < worlds[u].now + worlds[i].ttl
    ensures key in worlds[i].sessions && worlds[i].sessions[key].expiresAt == worlds[u].now + worlds[i].ttl
  {
    assert Follows(worlds, steps, i - 1);
    var w, step := worlds[i - 1], steps[i - 1];
    hide Next, Enabled, Initial, Sound, Uses, Ends;
    StepTime(w, step);
    if u == i - 1 {
      StepUses(w, step, key);
    } else {
      assert LastUsed(worlds, steps, u, i - 1, key);
      UsedIsStored(worlds, steps, u, i - 1, key);
      RunSound(worlds, steps, i - 1);
      assert !UsedAt(worlds, steps, i - 1, key) && !EndedAt(worlds, steps, i - 1, key);
      StepKeeps(w, step, key);
      StepLeaves(w, step, key);
    }
  }

  lemma LastUseIsOne(worlds: seq<World>, steps: seq<Step>, u: int, v: int, i: int, key: string)
    requires |worlds| == |steps| + 1 && LastUsed(worlds, steps, u, i, key) && LastUsed(worlds, steps, v, i, key)
    ensures u == v
  {
  }

  /**
   * A request finds its session exactly if less than a lifetime has gone by since the session
   * was opened or last found, and nothing has revoked it since; one that does not find it
   * leaves it gone from the store.
   */
  lemma FoundInTime(worlds: seq<World>, steps: seq<Step>, i: nat, key: string)
    requires IsRun(worlds, steps) && i < |steps| && steps[i].ReadSession? && steps[i].key == key
    ensures steps[i].t in worlds[i + 1].threads <==> InTime(worlds, steps, i, key)
    ensures steps[i].t !in worlds[i + 1].threads ==> key !in worlds[i + 1].sessions
  {
    assert Follows(worlds, steps, i);
    var w, step := worlds[i], steps[i];
    RunSound(worlds, steps, i);
    FoundIsUse(w, step, key);
    hide Next, Enabled, Initial, Sound, Uses, Ends;
    if InTime(worlds, steps, i, key) {
      var u :| LastUsed(worlds, steps, u, i, key) && w.now < worlds[u].now + w.ttl;
      UsedIsStored(worlds, steps, u, i, key);
      StepKeeps(w, step, key);
    } else {
      if key in w.sessions {
        StoredWasUsed(worlds, steps, i, key);
        var u :| LastUsed(worlds, steps, u, i, key) && w.sessions[key].expiresAt == worlds[u].now + w.ttl;
      }
      MissedRead(w, step, key);
    }
  }

  lemma FoundIsUse(w: World, step: Step, key: string)
    requires Enabled(w, step) && step.ReadSession? && step.key == key
    ensures step.t in Next(w, step).threads <==> Uses(w, step, Next(w, step), key)
    ensures !Ends(w, step, key)
  {
  }

  /** A request that is decided, whichever way, found its session in time. */
  lemma DecidedInTime(worlds: seq<World>, steps: seq<Step>, k: nat)
    requires IsRun(worlds, steps) && k < |steps| && steps[k].Decide?
    ensures steps[k].t in worlds[k].threads && worlds[k].threads[steps[k].t].Compared?
    ensures var key := worlds[k].threads[steps[k].t].key;
      exists g :: 0 <= g < k && steps[g].ReadSession? && steps[g].key == key && InTime(worlds, steps, g, key)
  {
    assert Follows(worlds, steps, k);
    AcceptedIsCurrent(worlds, steps, k);
    var t := worlds[k].threads[steps[k].t];
    var g, c :| c < k && DecidedByStamp(worlds, steps, g, c, t);
    assert ReadAt(worlds, steps, g, t.key, t.session, t.version);
    assert Follows(worlds, steps, g);
    hide Initial, Sound;
    assert steps[g].t in worlds[g + 1].threads;
    FoundInTime(worlds, steps, g, t.key);
  }

  /** Found in time, a session can be found for a lifetime more, and so on for as long as no
      pause is a lifetime long and nothing revokes it. */
  lemma FoundAgain(worlds: seq<World>, steps: seq<Step>, g: nat, i: nat, key: string)
    requires IsRun(worlds, steps) && g < i < |steps| && UsedAt(worlds, steps, g, key)
    requires steps[i].ReadSession? && steps[i].key == key
    requires forall n :: g < n < i ==> !EndedAt(worlds, steps, n, key)
    requires worlds[i].now < worlds[g].now + worlds[i].ttl
    ensures UsedAt(worlds, steps, i, key)
  {
    hide Next, Enabled, Initial, Uses, Ends;
    var u := LatestUse(worlds, steps, g, i, key);
    TimePasses(worlds, steps, g, u);
    assert InTime(worlds, steps, i, key);
    FoundInTime(worlds, steps, i, key);
    assert Follows(worlds, steps, i);
    FoundIsUse(worlds[i], steps[i], key);
  }

  lemma {:induction false} LatestUse(worlds: seq<World>, steps: seq<Step>, g: nat, i: nat, key: string)
    returns (u: nat)
    requires |worlds| == |steps| + 1 && g < i < |steps| && UsedAt(worlds, steps, g, key)
    requires forall n :: g < n < i ==> !EndedAt(worlds, steps, n, key)
    ensures g <= u < i && LastUsed(worlds, steps, u, i, key)
    decreases i - g
  {
    hide Uses, Ends;
    if n :| g < n < i && UsedAt(worlds, steps, n, key) { u := LatestUse(worlds, steps, n, i, key); } else { u := g; }
  }

  /** A request that comes a lifetime after the last use, or later, is refused, and so is every one after it. */
  lemma RefusedWhenLate(worlds: seq<World>, steps: seq<Step>, i: nat, key: string)
    requires IsRun(worlds, steps) && i < |steps| && steps[i].ReadSession? && steps[i].key == key
    requires forall u :: u < i && UsedAt(worlds, steps, u, key) ==> worlds[u].now + worlds[i].ttl <= worlds[i].now
    ensures steps[i].t !in worlds[i + 1].threads
    ensures key !in worlds[i + 1].sessions
  {
    hide UsedAt, EndedAt, Next, Enabled, Initial;
    FoundInTime(worlds, steps, i, key);
  }

  // ─── Whose a session is ───

  ghost predicate OpenedAt(worlds: seq<World>, steps: seq<Step>, o: int, key: string)
    requires |worlds| == |steps| + 1
  {
    && 0 <= o < |steps| && steps[o].OpenSession? && steps[o].key == key
    && steps[o].t in worlds[o].threads && worlds[o].threads[steps[o].t].SigningIn?
  }

  /** The session is the one of who signed in, as they were then, but for the stamp. */
  predicate IsOf(s: Session, who: Identity) {
    && s.userId == who.userId && s.username == who.username && s.role == who.role
    && s.database == who.database && s.superOwner == who.superOwner
  }

  /** The step decides that a request on the session passes. */
  predicate Admits(w: World, step: Step, key: string) {
    && step.Decide? && step.t in w.threads && w.threads[step.t].Compared? && w.threads[step.t].key == key
    && w.threads[step.t].answer == Stamped(w.threads[step.t].session.stamp)
  }

  /** How many requests have passed on the session from one step on and before another. */
  ghost function Admitted(worlds: seq<World>, steps: seq<Step>, o: nat, i: nat, key: string): nat
    requires |worlds| == |steps| + 1 && i < |worlds|
  {
    if i <= o then 0
    else Admitted(worlds, steps, o, i - 1, key) + if Admits(worlds[i - 1], steps[i - 1], key) then 1 else 0
  }

  ghost predicate BelongsTo(worlds: seq<World>, steps: seq<Step>, o: int, i: nat, key: string, s: Session)
    requires |worlds| == |steps| + 1 && i < |worlds|
  {
    && OpenedAt(worlds, steps, o, key) && o < i && IsOf(s, worlds[o].threads[steps[o].t].who)
    && s.createdAt == worlds[o].now && s.requests == 1 + Admitted(worlds, steps, o + 1, i, key)
  }

  lemma StepOpens(w: World, step: Step)
    requires Enabled(w, step) && step.OpenSession?
    ensures var w' := Next(w, step);
      && step.t in w.threads && w.threads[step.t].SigningIn? && step.key in w'.sessions
      && var s := w'.sessions[step.key];
      && IsOf(s, w.threads[step.t].who) && s.stamp == w.threads[step.t].who.stamp
      && s.createdAt == s.lastSeenAt == w.now && s.requests == 1
      && s.clientIp == "" && s.webContainer == "" && s.userAgent == ""
  {
  }

  /** What was sent, if anything was, and what there was before, if not. */
  function Latest(sent: string, before: string): string { if |sent| > 0 then sent else before }

  /** What a step changes in a session but when it ends: a read when it was seen, a request that
      passes that, the count and the origin, and a restamp the stamp. */
  lemma StepCarries(w: World, step: Step, key: string)
    requires Enabled(w, step) && key in Next(w, step).sessions && !(step.OpenSession? && step.key == key)
    ensures key in w.sessions
    ensures var s, s' := w.sessions[key], Next(w, step).sessions[key];
      && IsOf(s', Identity(s.userId, s.username, s.role, s.database, s.stamp, s.superOwner))
      && s'.createdAt == s.createdAt
      && s'.requests == s.requests + (if Admits(w, step, key) then 1 else 0)
      && s'.lastSeenAt ==
           (if Admits(w, step, key) || (step.ReadSession? && step.key == key) then w.now else s.lastSeenAt)
      && s'.clientIp == (if Admits(w, step, key) then Latest(step.origin.clientIp, s.clientIp) else s.clientIp)
      && s'.webContainer ==
           (if Admits(w, step, key) then Latest(step.origin.webContainer, s.webContainer) else s.webContainer)
      && s'.userAgent == (if Admits(w, step, key) then Latest(step.origin.userAgent, s.userAgent) else s.userAgent)
      && (!(step.Restamp? && w.threads[step.t].key == key) ==> s'.stamp == s.stamp)
  {
    hide VersionsAfter, ThreadsAfter, StampsAfter, IssuedAfter, LateAfter, AcceptedAfter;
  }

  /** Every session is that of who opened it, and has counted the requests that passed on it. */
  lemma {:induction false} SessionBelongs(worlds: seq<World>, steps: seq<Step>, i: nat, key: string)
    requires IsRun(worlds, steps) && i < |worlds| && key in worlds[i].sessions
    ensures exists o :: BelongsTo(worlds, steps, o, i, key, worlds[i].sessions[key])
  {
    if i > 0 {
      assert Follows(worlds, steps, i - 1);
      var w, step := worlds[i - 1], steps[i - 1];
      hide Next, Enabled, Initial;
      if step.OpenSession? && step.key == key {
        StepOpens(w, step);
        assert BelongsTo(worlds, steps, i - 1, i, key, worlds[i].sessions[key]);
      } else {
        StepCarries(w, step, key);
        SessionBelongs(worlds, steps, i - 1, key);
        var o :| BelongsTo(worlds, steps, o, i - 1, key, w.sessions[key]);
        assert BelongsTo(worlds, steps, o, i, key, worlds[i].sessions[key]);
      }
    }
  }
}
