/**
 * The protocol between accounts and sessions, as steps that any number of sign-ins,
 * requests and account changes take in any order. A sign-in reads the account's stamp and
 * opens its session in a later step; a request reads its session, then the stamp, and is
 * decided after that; a password change that keeps its own session reads the new stamp
 * and gives it to the session in a later step.
 */
module Protocol {
  import opened Common
  import opened Sessions

  datatype Account = Account(database: string, userId: string)

  /** Something a thread has read and not yet used. A version counts the states the account
      has been in, the first being 0. */
  datatype Thread =
    | SigningIn(who: Identity, version: nat)
    | Fetched(key: string, session: Session, version: nat)
    | Compared(key: string, session: Session, version: nat, answer: Answer)
    | Keeping(key: string, stamp: string, version: nat)

  /**
   * `stamps` holds the stamps an account has had, the last being the current one; `gone`
   * the accounts deleted. `versions` says which state of the account the stamp of a session
   * was read in. `issued` are the keys ever handed out, each for an account; `late` those
   * of sessions opened when the account was no longer in the state their sign-in had read;
   * `accepted` those a request has passed with.
   */
  datatype World = World(
    now: Moment, ttl: nat,
    stamps: map<Account, seq<string>>, gone: set<Account>,
    sessions: Sessions, versions: map<string, nat>, threads: map<nat, Thread>,
    issued: map<string, Account>, late: set<string>, accepted: set<string>)

  datatype Step =
    | Tick(d: nat)
    | NewAccount(a: Account, stamp: string)
    | ChangeAccount(a: Account, stamp: string)
    | DeleteAccount(a: Account)
    | ReadForSignIn(t: nat, who: Identity)
    | OpenSession(t: nat, key: string)
    | ReadSession(t: nat, key: string)
    | Compare(t: nat, down: bool)
    | Decide(t: nat, origin: Origin)
    | RevokeUser(a: Account, keep: string)
    | RevokeDatabase(database: string)
    | Revoke(key: string)
    | ReadToKeep(t: nat, key: string)
    | Restamp(t: nat)

  function AccountOf(s: Session): Account { Account(s.database, s.userId) }

  function WhoseAccount(who: Identity): Account { Account(who.database, who.userId) }

  predicate Exists(w: World, a: Account) { a in w.stamps && a !in w.gone && w.stamps[a] != [] }

  function Version(w: World, a: Account): nat
    requires Exists(w, a)
  {
    |w.stamps[a]| - 1
  }

  function Current(w: World, a: Account): string
    requires Exists(w, a)
  {
    w.stamps[a][|w.stamps[a]| - 1]
  }

  function Ask(w: World, a: Account): Answer { if Exists(w, a) then Stamped(Current(w, a)) else NoAccount }

  /** The decision: the request passes with the stamp it compared. */
  predicate Passes(t: Thread) { t.Compared? && t.answer == Stamped(t.session.stamp) }

  /** The step can be taken. */
  predicate Enabled(w: World, step: Step) {
    match step
    case Tick(_) => true
    case NewAccount(a, _) => a !in w.stamps
    case ChangeAccount(a, _) => Exists(w, a)
    case DeleteAccount(a) => Exists(w, a)
    case ReadForSignIn(t, who) =>
      t !in w.threads && Exists(w, WhoseAccount(who)) && who.stamp == Current(w, WhoseAccount(who))
    case OpenSession(t, key) => t in w.threads && w.threads[t].SigningIn? && key !in w.issued
    case ReadSession(t, key) => t !in w.threads
    case Compare(t, _) => t in w.threads && w.threads[t].Fetched?
    case Decide(t, _) => t in w.threads && w.threads[t].Compared?
    case RevokeUser(_, _) | RevokeDatabase(_) | Revoke(_) => true
    case ReadToKeep(t, key) =>
      t !in w.threads && key in w.accepted && key in w.issued && Exists(w, w.issued[key])
    case Restamp(t) => t in w.threads && w.threads[t].Keeping?
  }

  /** What a step does to the accounts. */
  function StampsAfter(w: World, step: Step): map<Account, seq<string>>
    requires Enabled(w, step)
  {
    match step
    case NewAccount(a, stamp) => w.stamps[a := [stamp]]
    case ChangeAccount(a, stamp) => w.stamps[a := w.stamps[a] + [stamp]]
    case _ => w.stamps
  }

  /** What a step does to the store of sessions. */
  function SessionsAfter(w: World, step: Step): Sessions
    requires Enabled(w, step)
  {
    match step
    case OpenSession(t, key) => Pruned(w.sessions, w.now)[key := NewSession(w.threads[t].who, w.now, w.ttl)]
    case ReadSession(_, key) => AfterGet(w.sessions, key, w.now, w.ttl)
    case Decide(t, origin) => DecidedSessions(w, w.threads[t], origin)
    case RevokeUser(a, keep) => WithoutUser(w.sessions, a.database, a.userId, keep)
    case RevokeDatabase(database) => WithoutDatabase(w.sessions, database)
    case Revoke(key) => w.sessions - {key}
    case Restamp(t) =>
      var k := w.threads[t];
      if k.key in w.sessions then w.sessions[k.key := w.sessions[k.key].(stamp := k.stamp)] else w.sessions
    case _ => w.sessions
  }

  /** A request that passes touches its session, one that does not revokes it. */
  function DecidedSessions(w: World, c: Thread, o: Origin): Sessions
    requires c.Compared?
  {
    if c.answer.Unreachable? then w.sessions
    else if !Passes(c) then w.sessions - {c.key}
    else if c.key !in w.sessions then w.sessions
    else w.sessions[c.key := Touched(w.sessions[c.key], w.now, o.clientIp, o.webContainer, o.userAgent)]
  }

  function VersionsAfter(w: World, step: Step): map<string, nat>
    requires Enabled(w, step)
  {
    match step
    case OpenSession(t, key) => w.versions[key := w.threads[t].version]
    case Restamp(t) =>
      if w.threads[t].key in w.sessions then w.versions[w.threads[t].key := w.threads[t].version] else w.versions
    case _ => w.versions
  }

  /** What a step leaves its thread with. */
  function ThreadsAfter(w: World, step: Step): map<nat, Thread>
    requires Enabled(w, step)
  {
    match step
    case ReadForSignIn(t, who) => w.threads[t := SigningIn(who, Version(w, WhoseAccount(who)))]
    case ReadSession(t, key) =>
      var s := Gotten(w.sessions, key, w.now, w.ttl);
      if s.Some? && key in w.versions then w.threads[t := Fetched(key, s.value, w.versions[key])] else w.threads
    case Compare(t, down) =>
      var f := w.threads[t];
      var answer := if down then Unreachable else Ask(w, AccountOf(f.session));
      w.threads[t := Compared(f.key, f.session, f.version, answer)]
    case ReadToKeep(t, key) => w.threads[t := Keeping(key, Current(w, w.issued[key]), Version(w, w.issued[key]))]
    case OpenSession(t, _) => w.threads - {t}
    case Decide(t, _) => w.threads - {t}
    case Restamp(t) => w.threads - {t}
    case _ => w.threads
  }

  function IssuedAfter(w: World, step: Step): map<string, Account>
    requires Enabled(w, step)
  {
    if step.OpenSession? then w.issued[step.key := WhoseAccount(w.threads[step.t].who)] else w.issued
  }

  /** The account is no longer in the state it had in this version. */
  predicate Lapsed(w: World, a: Account, version: nat) { !(Exists(w, a) && Version(w, a) == version) }

  function LateAfter(w: World, step: Step): set<string>
    requires Enabled(w, step)
  {
    if step.OpenSession? && Lapsed(w, WhoseAccount(w.threads[step.t].who), w.threads[step.t].version)
    then w.late + {step.key} else w.late
  }

  function AcceptedAfter(w: World, step: Step): set<string>
    requires Enabled(w, step)
  {
    if step.Decide? && Passes(w.threads[step.t]) then w.accepted + {w.threads[step.t].key} else w.accepted
  }

  function Next(w: World, step: Step): World
    requires Enabled(w, step)
  {
    World(if step.Tick? then w.now + step.d else w.now, w.ttl,
          StampsAfter(w, step), if step.DeleteAccount? then w.gone + {step.a} else w.gone,
          SessionsAfter(w, step), VersionsAfter(w, step), ThreadsAfter(w, step),
          IssuedAfter(w, step), LateAfter(w, step), AcceptedAfter(w, step))
  }

  /** The steps can be taken one after another with nothing in between. */
  predicate CanTake(w: World, steps: seq<Step>)
    decreases |steps|
  {
    steps == [] || (Enabled(w, steps[0]) && CanTake(Next(w, steps[0]), steps[1..]))
  }

  function Taken(w: World, steps: seq<Step>): World
    requires CanTake(w, steps)
    decreases |steps|
  {
    if steps == [] then w else Taken(Next(w, steps[0]), steps[1..])
  }

  lemma TakeNothing(w: World)
    ensures CanTake(w, []) && Taken(w, []) == w
  {
  }

  lemma TakeMore(w: World, step: Step, rest: seq<Step>)
    requires Enabled(w, step) && CanTake(Next(w, step), rest)
    ensures CanTake(w, [step] + rest) && Taken(w, [step] + rest) == Taken(Next(w, step), rest)
  {
    hide Enabled, Next;
    assert ([step] + rest)[1..] == rest;
  }

  lemma TakeTwo(w: World, first: Step, second: Step)
    requires Enabled(w, first) && Enabled(Next(w, first), second)
    ensures CanTake(w, [first, second])
    ensures Taken(w, [first, second]) == Next(Next(w, first), second)
  {
    hide Enabled, Next;
    var w1 := Next(w, first);
    TakeNothing(Next(w1, second));
    TakeMore(w1, second, []);
    assert [second] + [] == [second] && [first] + [second] == [first, second];
    TakeMore(w, first, [second]);
  }

  lemma {:induction false} TakeBoth(w: World, some: seq<Step>, more: seq<Step>)
    requires CanTake(w, some) && CanTake(Taken(w, some), more)
    ensures CanTake(w, some + more)
    ensures Taken(w, some + more) == Taken(Taken(w, some), more)
    decreases |some|
  {
    hide Enabled, Next;
    if some == [] {
      assert some + more == more;
    } else {
      assert (some + more)[1..] == some[1..] + more;
      TakeBoth(Next(w, some[0]), some[1..], more);
    }
  }

  /** A server that has just started: accounts, but no sessions. */
  predicate Initial(w: World) {
    && w.sessions == map[] && w.versions == map[] && w.threads == map[] && w.accepted == {}
    && w.issued == map[] && w.late == {} && forall a :: a in w.stamps ==> |w.stamps[a]| == 1
  }

  /** A run: each world follows from the one before by its step. */
  ghost predicate IsRun(worlds: seq<World>, steps: seq<Step>) {
    && |worlds| == |steps| + 1 && Initial(worlds[0])
    && forall i :: 0 <= i < |steps| ==> Follows(worlds, steps, i)
  }

  ghost predicate Follows(worlds: seq<World>, steps: seq<Step>, i: int)
    requires |worlds| == |steps| + 1 && 0 <= i < |steps|
  {
    Enabled(worlds[i], steps[i]) && worlds[i + 1] == Next(worlds[i], steps[i])
  }

  // ─── Where a thread has its knowledge from ───

  /** At step `g` a request read the session, which was there and had not expired. */
  ghost predicate ReadAt(worlds: seq<World>, steps: seq<Step>, g: int, key: string, s: Session, version: nat)
    requires |worlds| == |steps| + 1
  {
    && 0 <= g < |steps| && steps[g].ReadSession? && steps[g].key == key
    && var w := worlds[g];
    && key in w.sessions && Live(w.sessions[key], w.now) && s == Extended(w.sessions[key], w.now, w.ttl)
    && key in w.versions && version == w.versions[key]
  }

  /** At step `c` the stamp of the account was asked for. */
  ghost predicate AskedAt(worlds: seq<World>, steps: seq<Step>, c: int, s: Session, answer: Answer)
    requires |worlds| == |steps| + 1
  {
    && 0 <= c < |steps| && steps[c].Compare?
    && answer == if steps[c].down then Unreachable else Ask(worlds[c], AccountOf(s))
  }

  ghost predicate Witnessed(worlds: seq<World>, steps: seq<Step>, k: nat, t: Thread)
    requires |worlds| == |steps| + 1
  {
    match t
    case Fetched(key, s, version) => exists g :: g < k && ReadAt(worlds, steps, g, key, s, version)
    case Compared(key, s, version, answer) =>
      exists g, c :: g < c < k && ReadAt(worlds, steps, g, key, s, version) && AskedAt(worlds, steps, c, s, answer)
    case _ => true
  }

  lemma {:induction false} ThreadsWitnessed(worlds: seq<World>, steps: seq<Step>, k: nat, t: nat)
    requires IsRun(worlds, steps) && k < |worlds| && t in worlds[k].threads
    ensures Witnessed(worlds, steps, k, worlds[k].threads[t])
  {
    if k > 0 {
      var before, step := worlds[k - 1], steps[k - 1];
      assert Follows(worlds, steps, k - 1);
      if t in before.threads && worlds[k].threads[t] == before.threads[t] {
        ThreadsWitnessed(worlds, steps, k - 1, t);
      } else if step.Compare? {
        var f := before.threads[t];
        ThreadsWitnessed(worlds, steps, k - 1, t);
        var g :| g < k - 1 && ReadAt(worlds, steps, g, f.key, f.session, f.version);
        assert AskedAt(worlds, steps, k - 1, f.session, worlds[k].threads[t].answer);
      } else if step.ReadSession? {
        var f := worlds[k].threads[t];
        assert ReadAt(worlds, steps, k - 1, f.key, f.session, f.version);
      }
    }
  }

  /** At step `c` the account was asked for and had this stamp. */
  ghost predicate StampedAt(worlds: seq<World>, steps: seq<Step>, c: int, a: Account, stamp: string)
    requires |worlds| == |steps| + 1
  {
    0 <= c < |steps| && steps[c].Compare? && Exists(worlds[c], a) && Current(worlds[c], a) == stamp
  }

  /** The request was decided by a session read at `g` and a stamp asked for at `c`: it passes
      exactly if the database answered and the stamp was the session's. */
  ghost predicate DecidedByStamp(worlds: seq<World>, steps: seq<Step>, g: int, c: int, t: Thread)
    requires |worlds| == |steps| + 1 && t.Compared?
  {
    && 0 <= g < c < |steps| && ReadAt(worlds, steps, g, t.key, t.session, t.version) && steps[c].Compare?
    && (Passes(t) <==>
        !steps[c].down && StampedAt(worlds, steps, c, AccountOf(t.session), worlds[g].sessions[t.key].stamp))
  }

  /** A request is decided by a session that was there and unexpired when it was read: it passes
      exactly if the session's stamp was the account's when it was compared afterwards. */
  lemma AcceptedIsCurrent(worlds: seq<World>, steps: seq<Step>, k: nat)
    requires IsRun(worlds, steps) && k < |steps| && Follows(worlds, steps, k) && steps[k].Decide?
    ensures var t := worlds[k].threads[steps[k].t];
      && (exists g, c :: c < k && DecidedByStamp(worlds, steps, g, c, t))
      && worlds[k + 1].accepted == if Passes(t) then worlds[k].accepted + {t.key} else worlds[k].accepted
  {
    ThreadsWitnessed(worlds, steps, k, steps[k].t);
    var t := worlds[k].threads[steps[k].t];
    var g, c :| g < c < k && ReadAt(worlds, steps, g, t.key, t.session, t.version)
      && AskedAt(worlds, steps, c, t.session, t.answer);
    assert DecidedByStamp(worlds, steps, g, c, t);
  }

  // ─── What every step keeps ───

  /** The stamp was the account's in this version. */
  predicate WasStamp(w: World, a: Account, version: nat, stamp: string) {
    a in w.stamps && version < |w.stamps[a]| && w.stamps[a][version] == stamp
  }

  predicate SessionSound(w: World, key: string, s: Session, version: nat) {
    key in w.issued && w.issued[key] == AccountOf(s) && WasStamp(w, AccountOf(s), version, s.stamp)
  }

  predicate ThreadSound(w: World, t: Thread) {
    match t
    case SigningIn(who, version) => WasStamp(w, WhoseAccount(who), version, who.stamp)
    case Fetched(key, s, version) => SessionSound(w, key, s, version)
    case Compared(key, s, version, _) => SessionSound(w, key, s, version)
    case Keeping(key, stamp, version) =>
      key in w.accepted && key in w.issued && WasStamp(w, w.issued[key], version, stamp)
  }

  /** Every stamp anything carries was the account's in the version it is said to be from. */
  ghost predicate Sound(w: World) {
    && (forall k :: k in w.sessions ==> k in w.versions && SessionSound(w, k, w.sessions[k], w.versions[k]))
    && (forall t :: t in w.threads ==> ThreadSound(w, w.threads[t]))
    && (forall k :: k in w.accepted ==> k in w.issued) && (forall a :: a in w.stamps ==> w.stamps[a] != [])
  }

  /** Nothing that has happened is undone. */
  ghost predicate Grows(w: World, w': World) {
    && (forall a :: a in w.stamps ==> a in w'.stamps && w.stamps[a] <= w'.stamps[a])
    && (forall k :: k in w.issued ==> k in w'.issued && w'.issued[k] == w.issued[k])
    && w.gone <= w'.gone && w.late <= w'.late && w.accepted <= w'.accepted
  }

  lemma StepGrows(w: World, step: Step)
    requires Enabled(w, step)
    ensures Grows(w, Next(w, step))
  {
    hide SessionsAfter, VersionsAfter, ThreadsAfter;
  }

  lemma ThreadStays(w: World, w': World, t: Thread)
    requires Grows(w, w') && ThreadSound(w, t)
    ensures ThreadSound(w', t)
  {
  }

  lemma SessionStays(w: World, w': World, key: string, s: Session, version: nat)
    requires Grows(w, w') && SessionSound(w, key, s, version)
    ensures SessionSound(w', key, s, version)
  {
  }

  /** The session is as it was, but for when and from where it was used. */
  ghost predicate Carried(w: World, w': World, k: string)
    requires k in w'.sessions
  {
    && k in w.sessions && AccountOf(w'.sessions[k]) == AccountOf(w.sessions[k])
    && w'.sessions[k].stamp == w.sessions[k].stamp
    && (k in w.versions ==> k in w'.versions && w'.versions[k] == w.versions[k])
  }

  /** A session after a step is one from before it, one just opened, or one just restamped. */
  lemma SessionOrigin(w: World, step: Step, k: string)
    requires Enabled(w, step) && k in Next(w, step).sessions
    ensures var w' := Next(w, step);
      || Carried(w, w', k)
      || (step.OpenSession? && step.key == k && var opening := w.threads[step.t];
          && w'.sessions[k] == NewSession(opening.who, w.now, w.ttl)
          && k in w'.versions && w'.versions[k] == opening.version
          && k in w'.issued && w'.issued[k] == WhoseAccount(opening.who))
      || (step.Restamp? && w.threads[step.t].key == k && k in w.sessions
          && w'.sessions[k] == w.sessions[k].(stamp := w.threads[step.t].stamp)
          && k in w'.versions && w'.versions[k] == w.threads[step.t].version)
  {
    hide ThreadsAfter, StampsAfter, LateAfter, AcceptedAfter, Pruned, WithoutUser, WithoutDatabase;
  }

  lemma SessionKept(w: World, step: Step, k: string)
    requires Sound(w) && Enabled(w, step) && k in Next(w, step).sessions
    ensures var w' := Next(w, step); k in w'.versions && SessionSound(w', k, w'.sessions[k], w'.versions[k])
  {
    StepGrows(w, step);
    SessionOrigin(w, step, k);
    var w' := Next(w, step);
    hide Next, Grows;
    if Carried(w, w', k) {
      SessionStays(w, w', k, w.sessions[k], w.versions[k]);
    } else {
      ThreadStays(w, w', w.threads[step.t]);
      if step.Restamp? { SessionStays(w, w', k, w.sessions[k], w.versions[k]); }
    }
  }

  /** A thread after a step is one from before it or has just read something. */
  lemma ThreadOrigin(w: World, step: Step, t: nat)
    requires Enabled(w, step) && t in Next(w, step).threads
    ensures var w' := Next(w, step); var r := w'.threads[t];
      || (t in w.threads && r == w.threads[t])
      || (step.ReadForSignIn? && step.t == t && r == SigningIn(step.who, Version(w, WhoseAccount(step.who))))
      || (step.ReadSession? && step.t == t && Gotten(w.sessions, step.key, w.now, w.ttl).Some? && step.key in w.versions
          && r == Fetched(step.key, Gotten(w.sessions, step.key, w.now, w.ttl).value, w.versions[step.key]))
      || (step.Compare? && step.t == t && r.Compared? && var f := w.threads[t];
          r.key == f.key && r.session == f.session && r.version == f.version
          && r.answer == if step.down then Unreachable else Ask(w, AccountOf(f.session)))
      || (step.ReadToKeep? && step.t == t
          && r == Keeping(step.key, Current(w, w.issued[step.key]), Version(w, w.issued[step.key])))
  {
    hide SessionsAfter, VersionsAfter, StampsAfter, IssuedAfter, LateAfter, AcceptedAfter;
  }

  lemma ThreadKept(w: World, step: Step, t: nat)
    requires Sound(w) && Enabled(w, step) && t in Next(w, step).threads
    ensures ThreadSound(Next(w, step), Next(w, step).threads[t])
  {
    StepGrows(w, step);
    ThreadOrigin(w, step, t);
    var w' := Next(w, step);
    hide Next, Grows;
    assert ThreadSound(w, w'.threads[t]);
    ThreadStays(w, w', w'.threads[t]);
  }

  lemma StepSound(w: World, step: Step)
    requires Sound(w) && Enabled(w, step)
    ensures Sound(Next(w, step))
  {
    forall k | k in Next(w, step).sessions
      ensures k in Next(w, step).versions
      ensures SessionSound(Next(w, step), k, Next(w, step).sessions[k], Next(w, step).versions[k])
    {
      SessionKept(w, step, k);
    }
    forall t | t in Next(w, step).threads ensures ThreadSound(Next(w, step), Next(w, step).threads[t]) {
      ThreadKept(w, step, t);
    }
    AcceptedIssued(w, step);
    hide Next, SessionSound, ThreadSound;
  }

  lemma AcceptedIssued(w: World, step: Step)
    requires Sound(w) && Enabled(w, step)
    ensures var w' := Next(w, step);
      (forall k :: k in w'.accepted ==> k in w'.issued) && (forall a :: a in w'.stamps ==> w'.stamps[a] != [])
  {
    hide SessionsAfter, VersionsAfter, ThreadsAfter, LateAfter;
  }

  // ─── Sessions opened late ───

  /** No account has had a stamp twice. */
  ghost predicate NoRepeat(w: World) { forall a :: a in w.stamps ==> Distinct(w.stamps[a]) }

  predicate ThreadRefused(w: World, t: Thread) {
    match t
    case Fetched(key, s, version) => key in w.late ==> Lapsed(w, AccountOf(s), version)
    case Compared(key, _, _, _) => key in w.late ==> !Passes(t)
    case _ => true
  }

  /** Late sessions are never accepted, and nothing is on its way to accept one. */
  ghost predicate Refused(w: World) {
    && (forall k :: k in w.late ==> k in w.issued && k !in w.accepted)
    && (forall k :: k in w.late && k in w.sessions && k in w.versions ==>
         Lapsed(w, AccountOf(w.sessions[k]), w.versions[k]))
    && (forall t :: t in w.threads ==> ThreadRefused(w, w.threads[t]))
  }

  lemma LapsedStays(w: World, w': World, a: Account, version: nat)
    requires Grows(w, w') && Lapsed(w, a, version) && a in w.stamps && version < |w.stamps[a]|
    ensures Lapsed(w', a, version)
  {
  }

  /** A stamp that is current again is current still, where none repeats. */
  lemma StampTellsVersion(w: World, a: Account, version: nat, stamp: string)
    requires NoRepeat(w) && WasStamp(w, a, version, stamp)
    ensures Ask(w, a) == Stamped(stamp) <==> !Lapsed(w, a, version)
  {
  }

  /** Which keys are late, and which accepted, after a step. */
  lemma LateOrigin(w: World, step: Step)
    requires Enabled(w, step)
    ensures var w' := Next(w, step);
      && (forall k :: k in w'.late <==> (k in w.late || (step.OpenSession? && step.key == k
          && Lapsed(w, WhoseAccount(w.threads[step.t].who), w.threads[step.t].version))))
      && (forall k :: k in w'.accepted <==> (k in w.accepted || (step.Decide?
          && Passes(w.threads[step.t]) && w.threads[step.t].key == k)))
      && (step.OpenSession? ==>
           w'.stamps == w.stamps && w'.gone == w.gone && step.key in w'.issued && step.key !in w.issued)
  {
    hide SessionsAfter, VersionsAfter, ThreadsAfter;
  }

  lemma LateSessionKept(w: World, step: Step, k: string)
    requires Sound(w) && Refused(w) && Enabled(w, step)
    requires k in Next(w, step).sessions && k in Next(w, step).late && k in Next(w, step).versions
    ensures var w' := Next(w, step); Lapsed(w', AccountOf(w'.sessions[k]), w'.versions[k])
  {
    StepGrows(w, step);
    SessionOrigin(w, step, k);
    LateOrigin(w, step);
    var w' := Next(w, step);
    hide Next, Grows;
    if Carried(w, w', k) {
      LapsedStays(w, w', AccountOf(w.sessions[k]), w.versions[k]);
    }
  }

  /** What a step leaves its thread with is refused by what was known before the step. */
  lemma ThreadRefusedBefore(w: World, step: Step, t: nat)
    requires Sound(w) && Refused(w) && NoRepeat(w) && Enabled(w, step) && t in Next(w, step).threads
    ensures var r := Next(w, step).threads[t]; ThreadSound(w, r) && ThreadRefused(w, r)
  {
    ThreadOrigin(w, step, t);
    var r := Next(w, step).threads[t];
    hide Next, Lapsed, Distinct;
    assert ThreadSound(w, r);
    if r.Compared? && step.Compare? && step.t == t {
      StampTellsVersion(w, AccountOf(r.session), r.version, r.session.stamp);
    }
  }

  /** Refused once is refused for good. */
  lemma RefusedStays(w: World, w': World, r: Thread)
    requires Grows(w, w') && ThreadSound(w, r) && ThreadRefused(w, r)
    requires forall k :: k in w'.late && k in w.issued ==> k in w.late
    ensures ThreadRefused(w', r)
  {
    if r.Fetched? && r.key in w'.late { LapsedStays(w, w', AccountOf(r.session), r.version); }
  }

  lemma LateThreadKept(w: World, step: Step, t: nat)
    requires Sound(w) && Refused(w) && NoRepeat(w) && Enabled(w, step) && t in Next(w, step).threads
    ensures ThreadRefused(Next(w, step), Next(w, step).threads[t])
  {
    StepGrows(w, step);
    ThreadRefusedBefore(w, step, t);
    LateOrigin(w, step);
    var w' := Next(w, step);
    hide *;
    RefusedStays(w, w', w'.threads[t]);
  }

  lemma StepRefused(w: World, step: Step)
    requires Sound(w) && Refused(w) && NoRepeat(w) && Enabled(w, step)
    ensures Refused(Next(w, step))
  {
    LateOrigin(w, step);
    StepGrows(w, step);
    forall t | t in Next(w, step).threads ensures ThreadRefused(Next(w, step), Next(w, step).threads[t]) {
      LateThreadKept(w, step, t);
    }
    forall k | k in Next(w, step).sessions && k in Next(w, step).late && k in Next(w, step).versions
      ensures Lapsed(Next(w, step), AccountOf(Next(w, step).sessions[k]), Next(w, step).versions[k])
    {
      LateSessionKept(w, step, k);
    }
    hide Next, Lapsed;
  }

  lemma {:induction false} RunSound(worlds: seq<World>, steps: seq<Step>, k: nat)
    requires IsRun(worlds, steps) && k < |worlds|
    ensures Sound(worlds[k])
    ensures (forall i :: 0 <= i < k ==> NoRepeat(worlds[i])) ==> Refused(worlds[k])
  {
    if k > 0 {
      RunSound(worlds, steps, k - 1);
      assert Follows(worlds, steps, k - 1);
      StepSound(worlds[k - 1], steps[k - 1]);
      if forall i :: 0 <= i < k ==> NoRepeat(worlds[i]) { StepRefused(worlds[k - 1], steps[k - 1]); }
      hide Sound, Refused, NoRepeat, Next;
    }
  }

  lemma {:induction false} LateStaysLate(worlds: seq<World>, steps: seq<Step>, i: nat, j: nat)
    requires IsRun(worlds, steps) && i <= j < |worlds|
    ensures worlds[i].late <= worlds[j].late
  {
    if i < j {
      hide Next, Enabled, Initial;
      LateStaysLate(worlds, steps, i, j - 1);
      assert Follows(worlds, steps, j - 1);
      StepGrows(worlds[j - 1], steps[j - 1]);
    }
  }

  /** Where no account has a stamp twice, a session opened by a sign-in that read a state the
      account was no longer in is never accepted, whatever happens and however it is ordered. */
  lemma LateNeverAccepted(worlds: seq<World>, steps: seq<Step>, i: nat, j: nat, key: string)
    requires IsRun(worlds, steps) && i <= j < |worlds| && key in worlds[i].late
    requires forall n :: 0 <= n < |worlds| ==> NoRepeat(worlds[n])
    ensures key !in worlds[j].accepted
  {
    LateStaysLate(worlds, steps, i, j);
    RunSound(worlds, steps, j);
    hide NoRepeat, Next;
  }

  /** The request passes exactly if the database answered and the account was, when it was asked
      for, in the very state its session had its stamp from. */
  ghost predicate DecidedByState(worlds: seq<World>, steps: seq<Step>, g: int, c: int, t: Thread)
    requires |worlds| == |steps| + 1 && t.Compared?
  {
    && 0 <= g < c < |steps| && ReadAt(worlds, steps, g, t.key, t.session, t.version) && steps[c].Compare?
    && (Passes(t) <==> !steps[c].down && OfCurrentState(worlds, steps, g, c, t.key))
  }

  /** Where no account has a stamp twice, a request passes exactly if the state of the account its
      session was opened in, or was last given the stamp of, is the one it is in when it is asked. */
  lemma AcceptedIsOfCurrentState(worlds: seq<World>, steps: seq<Step>, k: nat)
    requires IsRun(worlds, steps) && k < |steps| && Follows(worlds, steps, k) && steps[k].Decide?
    requires forall n :: 0 <= n < |worlds| ==> NoRepeat(worlds[n])
    ensures exists g, c :: c < k && DecidedByState(worlds, steps, g, c, worlds[k].threads[steps[k].t])
  {
    AcceptedIsCurrent(worlds, steps, k);
    var t := worlds[k].threads[steps[k].t];
    var g, c :| c < k && DecidedByStamp(worlds, steps, g, c, t);
    RunSound(worlds, steps, g);
    RunGrows(worlds, steps, g, c);
    StampIsState(worlds, steps, g, c, t.key, t.session, t.version);
    assert DecidedByState(worlds, steps, g, c, t);
  }

  lemma StampIsState(worlds: seq<World>, steps: seq<Step>, g: int, c: int, key: string, s: Session, version: nat)
    requires |worlds| == |steps| + 1 && 0 <= g < c < |steps| && ReadAt(worlds, steps, g, key, s, version)
    requires steps[c].Compare? && Sound(worlds[g]) && Grows(worlds[g], worlds[c]) && NoRepeat(worlds[c])
    ensures StampedAt(worlds, steps, c, AccountOf(s), worlds[g].sessions[key].stamp) <==>
      OfCurrentState(worlds, steps, g, c, key)
  {
    SessionStays(worlds[g], worlds[c], key, worlds[g].sessions[key], version);
    hide Sound, Grows, NoRepeat;
    StampTellsVersion(worlds[c], AccountOf(s), version, worlds[g].sessions[key].stamp);
  }

  /** The state of the account the session had its stamp from at `g` is its state at `c`. */
  ghost predicate OfCurrentState(worlds: seq<World>, steps: seq<Step>, g: int, c: int, key: string)
    requires |worlds| == |steps| + 1
  {
    && 0 <= g < c < |steps| && steps[c].Compare? && key in worlds[g].sessions && key in worlds[g].versions
    && var a := AccountOf(worlds[g].sessions[key]);
    Exists(worlds[c], a) && worlds[g].versions[key] == Version(worlds[c], a)
  }

  lemma {:induction false} RunGrows(worlds: seq<World>, steps: seq<Step>, i: nat, j: nat)
    requires IsRun(worlds, steps) && i <= j < |worlds|
    ensures Grows(worlds[i], worlds[j])
  {
    if i < j {
      hide Next, Enabled, Initial, Grows;
      RunGrows(worlds, steps, i, j - 1);
      assert Follows(worlds, steps, j - 1);
      StepGrows(worlds[j - 1], steps[j - 1]);
      GrowsOn(worlds[i], worlds[j - 1], worlds[j]);
    } else {
      GrowsFromItself(worlds[i]);
      hide Next, Enabled, Initial, Grows;
    }
  }

  lemma GrowsFromItself(w: World)
    ensures Grows(w, w)
  {
  }

  lemma GrowsOn(a: World, b: World, c: World)
    requires Grows(a, b) && Grows(b, c)
    ensures Grows(a, c)
  {
  }
}
