/** auth/throttle.go: slowing down password guessing. */
module Throttle {
  import opened Common

  /** The number of failures in a row that lock a key, how long failures are remembered, and
      how long a lock lasts. */
  datatype Limits = Limits(max: int, window: int, lockout: int)

  /** A moment of zero stands for none, as the zero time does. */
  datatype AttemptRecord = AttemptRecord(count: int, firstFailed: Moment, lockedUntil: Moment)

  type Attempts = map<string, AttemptRecord>

  // ─── One key ───

  /** The first failure is as long ago as failures are remembered, and there was no lock. */
  predicate Forgotten(l: Limits, r: AttemptRecord, now: Moment) {
    r.lockedUntil == 0 && now - r.firstFailed >= l.window
  }

  predicate Locked(r: Option<AttemptRecord>, now: Moment) {
    r.Some? && r.value.lockedUntil != 0 && now < r.value.lockedUntil
  }

  predicate Allowed(l: Limits, r: Option<AttemptRecord>, now: Moment) { l.max <= 0 || !Locked(r, now) }

  function AfterAllow(l: Limits, r: Option<AttemptRecord>, now: Moment): Option<AttemptRecord> {
    if l.max > 0 && r.Some? && !Locked(r, now) && Forgotten(l, r.value, now) then None else r
  }

  function AfterFail(l: Limits, r: Option<AttemptRecord>, now: Moment): Option<AttemptRecord> {
    if l.max <= 0 then r
    else
      var anew := r.None? || Forgotten(l, r.value, now);
      var counted := if anew then AttemptRecord(1, now, 0) else r.value.(count := r.value.count + 1);
      Some(if counted.count >= l.max then counted.(lockedUntil := now + l.lockout) else counted)
  }

  predicate Locks(l: Limits, r: Option<AttemptRecord>, now: Moment) {
    l.max > 0 && AfterFail(l, r, now).value.count >= l.max
  }

  // ─── All keys ───

  function RecordOf(m: Attempts, key: string): Option<AttemptRecord> { if key in m then Some(m[key]) else None }

  function WithRecord(m: Attempts, key: string, r: Option<AttemptRecord>): Attempts {
    match r case None => m - {key} case Some(a) => m[key := a]
  }

  class LoginThrottle {
    const limits: Limits
    var attempts: Attempts

    constructor (limits: Limits)
      ensures this.limits == limits && attempts == map[]
    {
      this.limits, attempts := limits, map[];
    }

    method Allow(key: string, now: Moment) returns (allowed: bool, retryAfter: int)
      modifies `attempts
      ensures var r := RecordOf(old(attempts), key);
        && allowed == Allowed(limits, r, now)
        && retryAfter == (if allowed then 0 else r.value.lockedUntil - now)
        && attempts == WithRecord(old(attempts), key, AfterAllow(limits, r, now))
    {
      if limits.max <= 0 {
        return true, 0;
      }
      if key !in attempts {
        return true, 0;
      }
      var r := attempts[key];
      if r.lockedUntil != 0 && now < r.lockedUntil {
        return false, r.lockedUntil - now;
      }
      if r.lockedUntil == 0 && now - r.firstFailed >= limits.window {
        attempts := attempts - {key};
      }
      return true, 0;
    }

    method Fail(key: string, now: Moment) returns (locked: bool, retryAfter: int)
      modifies `attempts
      ensures var r := RecordOf(old(attempts), key);
        && locked == Locks(limits, r, now)
        && retryAfter == (if locked then limits.lockout else 0)
        && attempts == WithRecord(old(attempts), key, AfterFail(limits, r, now))
    {
      if limits.max <= 0 {
        return false, 0;
      }
      var r := AttemptRecord(0, now, 0);
      if key in attempts && !(attempts[key].lockedUntil == 0 && now - attempts[key].firstFailed >= limits.window) {
        r := attempts[key];
      }
      r := r.(count := r.count + 1);
      if r.count >= limits.max {
        r := r.(lockedUntil := now + limits.lockout);
        attempts := attempts[key := r];
        return true, limits.lockout;
      }
      attempts := attempts[key := r];
      return false, 0;
    }

    method Succeed(key: string)
      modifies `attempts
      ensures attempts == if limits.max <= 0 then old(attempts) else WithRecord(old(attempts), key, None)
    {
      if limits.max <= 0 {
        return;
      }
      attempts := attempts - {key};
    }
  }

  // ─── Keys do not interfere ───

  datatype Op = AllowOp(key: string, now: Moment) | FailOp(key: string, now: Moment) | SucceedOp(key: string)

  /** What an operation does to the record of its key. */
  function After(l: Limits, r: Option<AttemptRecord>, op: Op): Option<AttemptRecord> {
    match op
    case AllowOp(_, now) => AfterAllow(l, r, now)
    case FailOp(_, now) => AfterFail(l, r, now)
    case SucceedOp(_) => if l.max <= 0 then r else None
  }

  function RunAll(l: Limits, m: Attempts, ops: seq<Op>): Attempts {
    if ops == [] then m
    else
      var before, op := RunAll(l, m, ops[..|ops| - 1]), ops[|ops| - 1];
      WithRecord(before, op.key, After(l, RecordOf(before, op.key), op))
  }

  function Of(ops: seq<Op>, key: string): seq<Op> {
    if ops == [] then []
    else Of(ops[..|ops| - 1], key) + if ops[|ops| - 1].key == key then [ops[|ops| - 1]] else []
  }

  function RunOne(l: Limits, r: Option<AttemptRecord>, ops: seq<Op>): Option<AttemptRecord> {
    if ops == [] then r else After(l, RunOne(l, r, ops[..|ops| - 1]), ops[|ops| - 1])
  }

  /** However operations on other keys come in between, a key is where its own have brought it. */
  lemma {:induction false} KeysAreIndependent(l: Limits, m: Attempts, ops: seq<Op>, key: string)
    ensures RecordOf(RunAll(l, m, ops), key) == RunOne(l, RecordOf(m, key), Of(ops, key))
  {
    if ops != [] {
      var front, op := ops[..|ops| - 1], ops[|ops| - 1];
      KeysAreIndependent(l, m, front, key);
      hide After;
      if op.key == key {
        assert (Of(front, key) + [op])[..|Of(front, key)|] == Of(front, key);
      } else {
        assert Of(front, key) + [] == Of(front, key);
      }
    }
  }

  // ─── How many guesses get through ───

  /** An attempt to sign in with a wrong password: when it asks, and when it is found wrong. */
  datatype Guess = Guess(asked: Moment, failed: Moment)

  /** The guesses come one after another between the two moments. */
  ghost predicate OneByOne(guesses: seq<Guess>, start: Moment, end: Moment) {
    && start <= end && (forall i :: 0 <= i < |guesses| ==> start <= guesses[i].asked <= guesses[i].failed <= end)
    && forall i :: 0 < i < |guesses| ==> guesses[i - 1].failed <= guesses[i].asked
  }

  /** The record of a key after some guesses, how many were let through, and when the key was
      first locked. */
  datatype Tally = Tally(record: Option<AttemptRecord>, failures: nat, firstLock: Option<Moment>)

  function AfterGuess(l: Limits, t: Tally, g: Guess): Tally {
    if !Allowed(l, t.record, g.asked) then t
    else
      var r := AfterAllow(l, t.record, g.asked);
      Tally(AfterFail(l, r, g.failed), t.failures + 1,
            if t.firstLock.None? && Locks(l, r, g.failed) then Some(g.failed) else t.firstLock)
  }

  function AfterGuesses(l: Limits, t: Tally, guesses: seq<Guess>): Tally {
    if guesses == [] then t
    else AfterGuess(l, AfterGuesses(l, t, guesses[..|guesses| - 1]), guesses[|guesses| - 1])
  }

  /** A key nobody has failed on yet, after the guesses. */
  function Guessed(l: Limits, guesses: seq<Guess>): Tally { AfterGuesses(l, Tally(None, 0, None), guesses) }

  /** Before the first lock: `rounds` rounds of failures are forgotten, each with fewer than
      enough failures to lock and each as long as failures are remembered. */
  ghost predicate BeforeLock(l: Limits, t: Tally, start: Moment, now: Moment, rounds: nat) {
    && t.firstLock.None?
    && match t.record
       case None => t.failures <= (l.max - 1) * rounds && rounds * l.window <= now - start
       case Some(r) =>
         && r.lockedUntil == 0 && 0 < r.count < l.max && r.firstFailed <= now
         && t.failures <= (l.max - 1) * rounds + r.count && rounds * l.window <= r.firstFailed - start
  }

  /** After it: each of the `more` failures since came when the lock of the one before had run out. */
  ghost predicate AfterLock(l: Limits, t: Tally, start: Moment, now: Moment, rounds: nat, more: nat) {
    && t.firstLock.Some? && start <= t.firstLock.value <= now
    && t.record.Some? && t.record.value.count >= l.max && t.record.value.lockedUntil != 0
    && t.failures <= (l.max - 1) * rounds + l.max + more && rounds * l.window <= t.firstLock.value - start
    && t.firstLock.value + more * l.lockout <= t.record.value.lockedUntil - l.lockout <= now
  }

  ghost predicate Kept(l: Limits, t: Tally, start: Moment, now: Moment) {
    if t.firstLock.None? then exists rounds: nat :: BeforeLock(l, t, start, now, rounds)
    else exists rounds: nat, more: nat :: AfterLock(l, t, start, now, rounds, more)
  }

  ghost predicate Proper(l: Limits) { l.max > 0 && l.window > 0 && l.lockout > 0 }

  lemma GuessBeforeLock(l: Limits, t: Tally, g: Guess, start: Moment, now: Moment, rounds: nat)
    requires Proper(l) && 0 < start <= now <= g.asked <= g.failed && BeforeLock(l, t, start, now, rounds)
    ensures Kept(l, AfterGuess(l, t, g), start, g.failed)
  {
    var t' := AfterGuess(l, t, g);
    var forgets := t.record.Some? && Forgotten(l, t.record.value, g.failed);
    var rounds' := if forgets then rounds + 1 else rounds;
    assert (l.max - 1) * (rounds + 1) == (l.max - 1) * rounds + (l.max - 1);
    assert (rounds + 1) * l.window == rounds * l.window + l.window;
    if t'.firstLock.None? {
      assert BeforeLock(l, t', start, g.failed, rounds');
    } else {
      assert AfterLock(l, t', start, g.failed, rounds', 0);
    }
  }

  lemma GuessAfterLock(l: Limits, t: Tally, g: Guess, start: Moment, now: Moment, rounds: nat, more: nat)
    requires Proper(l) && 0 < start <= now <= g.asked <= g.failed && AfterLock(l, t, start, now, rounds, more)
    ensures Kept(l, AfterGuess(l, t, g), start, g.failed)
  {
    var t' := AfterGuess(l, t, g);
    if Allowed(l, t.record, g.asked) {
      assert (more + 1) * l.lockout == more * l.lockout + l.lockout;
      assert AfterLock(l, t', start, g.failed, rounds, more + 1);
    } else {
      assert AfterLock(l, t', start, g.failed, rounds, more);
    }
  }

  lemma {:induction false} GuessesKept(l: Limits, guesses: seq<Guess>, start: Moment, end: Moment)
    requires Proper(l) && 0 < start && OneByOne(guesses, start, end)
    ensures Kept(l, Guessed(l, guesses), start, if guesses == [] then start else guesses[|guesses| - 1].failed)
  {
    if guesses == [] {
      assert BeforeLock(l, Guessed(l, []), start, start, 0);
    } else {
      var front, g := guesses[..|guesses| - 1], guesses[|guesses| - 1];
      GuessesKept(l, front, start, end);
      var t := Guessed(l, front);
      var now := if front == [] then start else front[|front| - 1].failed;
      if t.firstLock.None? {
        var rounds: nat :| BeforeLock(l, t, start, now, rounds);
        GuessBeforeLock(l, t, g, start, now, rounds);
      } else {
        var rounds: nat, more: nat :| AfterLock(l, t, start, now, rounds, more);
        GuessAfterLock(l, t, g, start, now, rounds, more);
      }
    }
  }

  lemma Monotone(a: nat, b: int, c: int)
    requires b <= c
    ensures a * b <= a * c
  {
    assert a * c == a * b + a * (c - b);
  }

  lemma Fits(times: nat, length: int, span: int)
    requires length > 0 && times * length <= span
    ensures times <= span / length
  {
    var q := span / length;
    assert span < length * q + length == length * (q + 1);
    if q + 1 <= times {
      Monotone(length, q + 1, times);
      assert false;
    }
  }

  /**
   * However the guesses are timed, no more failures on a key get through than `max`, and
   * `max - 1` for every window that fits before the first lock, and one for every lockout
   * that fits after it.
   */
  lemma ThrottleBound(l: Limits, guesses: seq<Guess>, start: Moment, end: Moment)
    requires Proper(l) && 0 < start && OneByOne(guesses, start, end)
    ensures var t := Guessed(l, guesses);
      match t.firstLock
      case Some(lock) =>
        && start <= lock <= end
        && t.failures <= l.max + (l.max - 1) * ((lock - start) / l.window) + (end - lock) / l.lockout
      case None => t.failures <= (l.max - 1) * ((end - start) / l.window + 1)
  {
    GuessesKept(l, guesses, start, end);
    var t := Guessed(l, guesses);
    var now := if guesses == [] then start else guesses[|guesses| - 1].failed;
    if t.firstLock.None? {
      var rounds: nat :| BeforeLock(l, t, start, now, rounds);
      Fits(rounds, l.window, end - start);
      Monotone(l.max - 1, rounds, (end - start) / l.window);
      assert (l.max - 1) * ((end - start) / l.window + 1) == (l.max - 1) * ((end - start) / l.window) + (l.max - 1);
    } else {
      var rounds: nat, more: nat :| AfterLock(l, t, start, now, rounds, more);
      Fits(rounds, l.window, t.firstLock.value - start);
      Monotone(l.max - 1, rounds, (t.firstLock.value - start) / l.window);
      Fits(more, l.lockout, end - t.firstLock.value);
    }
  }

  // ─── The bound is reached ───

  lemma {:induction false} AfterBoth(l: Limits, t: Tally, a: seq<Guess>, b: seq<Guess>)
    ensures AfterGuesses(l, t, a + b) == AfterGuesses(l, AfterGuesses(l, t, a), b)
  {
    hide AfterGuess;
    if b == [] {
      assert a + b == a;
    } else {
      assert (a + b)[..|a + b| - 1] == a + b[..|b| - 1];
      AfterBoth(l, t, a, b[..|b| - 1]);
    }
  }

  lemma OneByOneJoin(a: seq<Guess>, b: seq<Guess>, start: Moment, middle: Moment, end: Moment)
    requires OneByOne(a, start, middle) && OneByOne(b, middle, end)
    ensures OneByOne(a + b, start, end)
  {
    var all := a + b;
    forall i | 0 < i < |all| ensures all[i - 1].failed <= all[i].asked {
      if i > |a| { assert all[i] == b[i - |a|] && all[i - 1] == b[i - |a| - 1]; }
      else if i == |a| { assert all[i] == b[0] && all[i - 1] == a[i - 1]; }
    }
  }

  /** So many guesses at one moment. */
  function AtOnce(n: nat, at: Moment): (guesses: seq<Guess>)
    ensures |guesses| == n && (forall i :: 0 <= i < n ==> guesses[i] == Guess(at, at))
  {
    if n == 0 then [] else AtOnce(n - 1, at) + [Guess(at, at)]
  }

  /** Nothing is remembered of the key at this moment. */
  predicate Clear(l: Limits, t: Tally, at: Moment) {
    t.firstLock.None? && (t.record.Some? ==> Forgotten(l, t.record.value, at))
  }

  lemma {:induction false} AtOnceTallies(l: Limits, t: Tally, n: nat, at: Moment)
    requires Proper(l) && at > 0 && n <= l.max && Clear(l, t, at)
    ensures var after := AfterGuesses(l, t, AtOnce(n, at));
      && after.failures == t.failures + n && (after.firstLock == if n < l.max then None else Some(at))
      && after.record == (if n == 0 then t.record
           else Some(AttemptRecord(n, at, if n < l.max then 0 else at + l.lockout)))
  {
    hide AfterGuesses, Forgotten;
    if n == 0 {
      NothingMore(l, t, at);
    } else {
      AtOnceTallies(l, t, n - 1, at);
      OneGuessMore(l, t, AtOnce(n - 1, at), Guess(at, at));
      GuessAgain(l, t, AfterGuesses(l, t, AtOnce(n - 1, at)), n, at);
    }
  }

  lemma OneGuessMore(l: Limits, t: Tally, guesses: seq<Guess>, g: Guess)
    ensures AfterGuesses(l, t, guesses + [g]) == AfterGuess(l, AfterGuesses(l, t, guesses), g)
  {
    assert (guesses + [g])[..|guesses|] == guesses;
    hide AfterGuess;
  }

  /** One more guess at the moment of the first. */
  lemma GuessAgain(l: Limits, first: Tally, t: Tally, n: nat, at: Moment)
    requires Proper(l) && at > 0 && 0 < n <= l.max && Clear(l, first, at) && t.firstLock.None?
    requires t.record == if n == 1 then first.record else Some(AttemptRecord(n - 1, at, 0))
    ensures AfterGuess(l, t, Guess(at, at)) ==
      Tally(Some(AttemptRecord(n, at, if n < l.max then 0 else at + l.lockout)), t.failures + 1,
            if n < l.max then None else Some(at))
  {
  }

  function Times(n: nat, length: int): int { n * length }

  lemma TimesNext(n: nat, length: int)
    ensures Times(0, length) == 0 && Times(n + 1, length) == Times(n, length) + length
    ensures length >= 0 ==> Times(n, length) >= 0
  {
  }

  /** `rounds` times as many guesses as do not lock, a window apart, from moment 1 on. */
  function Patient(l: Limits, rounds: nat): seq<Guess>
    requires l.max > 0
  {
    if rounds == 0 then [] else Patient(l, rounds - 1) + AtOnce(l.max - 1, 1 + Times(rounds - 1, l.window))
  }

  lemma {:induction false} PatientTallies(l: Limits, rounds: nat)
    requires Proper(l)
    ensures var at, t := 1 + Times(rounds, l.window), Guessed(l, Patient(l, rounds));
      && at > 0 && OneByOne(Patient(l, rounds), 1, at)
      && t.failures == Times(rounds, l.max - 1) && Clear(l, t, at)
  {
    hide Times, AfterGuesses, OneByOne;
    if rounds == 0 {
      TimesNext(0, l.window);
      TimesNext(0, l.max - 1);
      NothingMore(l, Tally(None, 0, None), 1);
    } else {
      var at := 1 + Times(rounds - 1, l.window);
      TimesNext(rounds - 1, l.window);
      TimesNext(rounds - 1, l.max - 1);
      PatientTallies(l, rounds - 1);
      var front, t := Patient(l, rounds - 1), Guessed(l, Patient(l, rounds - 1));
      AtOnceTallies(l, t, l.max - 1, at);
      AtOnceOrdered(l.max - 1, at, at + l.window);
      AfterBoth(l, Tally(None, 0, None), front, AtOnce(l.max - 1, at));
      OneByOneJoin(front, AtOnce(l.max - 1, at), 1, at, at + l.window);
    }
  }

  lemma NothingMore(l: Limits, t: Tally, at: Moment)
    ensures AfterGuesses(l, t, []) == t && OneByOne([], at, at)
  {
  }

  lemma AtOnceOrdered(n: nat, at: Moment, end: Moment)
    requires at <= end
    ensures OneByOne(AtOnce(n, at), at, end)
  {
  }

  /** A guess whenever a lock has run out. */
  function Hammering(l: Limits, lock: Moment, more: nat): seq<Guess> {
    if more == 0 then [] else Hammering(l, lock, more - 1) + AtOnce(1, lock + Times(more, l.lockout))
  }

  lemma OneGuess(l: Limits, t: Tally, at: Moment)
    ensures AfterGuesses(l, t, AtOnce(1, at)) == AfterGuess(l, t, Guess(at, at))
  {
    assert AtOnce(1, at)[..0] == [] && AfterGuesses(l, t, []) == t;
  }

  lemma GuessAtLock(l: Limits, t: Tally, at: Moment)
    requires Proper(l) && at > 0 && t.firstLock.Some?
    requires t.record.Some? && t.record.value.count >= l.max && t.record.value.lockedUntil == at
    ensures var after := AfterGuesses(l, t, AtOnce(1, at));
      && after.failures == t.failures + 1 && after.firstLock == t.firstLock
      && after.record.Some? && after.record.value.count >= l.max && after.record.value.lockedUntil == at + l.lockout
  {
    OneGuess(l, t, at);
    hide AfterGuesses;
  }

  lemma {:induction false} HammeringTallies(l: Limits, t: Tally, lock: Moment, more: nat)
    requires Proper(l) && lock > 0 && t.firstLock.Some?
    requires t.record.Some? && t.record.value.count >= l.max && t.record.value.lockedUntil == lock + l.lockout
    ensures var after := AfterGuesses(l, t, Hammering(l, lock, more));
      && OneByOne(Hammering(l, lock, more), lock, lock + Times(more, l.lockout))
      && after.failures == t.failures + more && after.firstLock == t.firstLock
      && after.record.Some? && after.record.value.count >= l.max
      && after.record.value.lockedUntil == lock + Times(more, l.lockout) + l.lockout
  {
    hide Times, AfterGuesses, OneByOne, AtOnce;
    if more == 0 {
      TimesNext(0, l.lockout);
      NothingMore(l, t, lock);
    } else {
      TimesNext(more - 1, l.lockout);
      HammeringTallies(l, t, lock, more - 1);
      var front := Hammering(l, lock, more - 1);
      var before, at := lock + Times(more - 1, l.lockout), lock + Times(more, l.lockout);
      GuessAtLock(l, AfterGuesses(l, t, front), at);
      AfterBoth(l, t, front, AtOnce(1, at));
      AtOnceOrdered(1, at, at);
      OneByOneEarlier(AtOnce(1, at), before, at, at);
      OneByOneJoin(front, AtOnce(1, at), lock, before, at);
    }
  }

  lemma OneByOneEarlier(guesses: seq<Guess>, before: Moment, start: Moment, end: Moment)
    requires before <= start && OneByOne(guesses, start, end)
    ensures OneByOne(guesses, before, end)
  {
  }

  /** Guessing that reaches the bound: windows waited out, a lock, and locks sat out. */
  function Persistent(l: Limits, rounds: nat, more: nat): seq<Guess>
    requires l.max > 0
  {
    var lock := 1 + Times(rounds, l.window);
    Patient(l, rounds) + AtOnce(l.max, lock) + Hammering(l, lock, more)
  }

  lemma PersistentTallies(l: Limits, rounds: nat, more: nat)
    requires Proper(l)
    ensures var lock := 1 + Times(rounds, l.window);
      var t := Guessed(l, Persistent(l, rounds, more));
      && OneByOne(Persistent(l, rounds, more), 1, lock + Times(more, l.lockout))
      && t.firstLock == Some(lock) && t.failures == l.max + Times(rounds, l.max - 1) + more
  {
    hide Times, AfterGuesses, OneByOne, Patient, Hammering, AtOnce;
    var lock, nobody := 1 + Times(rounds, l.window), Tally(None, 0, None);
    var a, b, c := Patient(l, rounds), AtOnce(l.max, lock), Hammering(l, lock, more);
    PatientTallies(l, rounds);
    AtOnceTallies(l, Guessed(l, a), l.max, lock);
    AtOnceOrdered(l.max, lock, lock);
    AfterBoth(l, nobody, a, b);
    HammeringTallies(l, Guessed(l, a + b), lock, more);
    AfterBoth(l, nobody, a + b, c);
    OneByOneJoin(a, b, 1, lock, lock);
    OneByOneJoin(a + b, c, 1, lock, lock + Times(more, l.lockout));
  }

  /** The bound is reached, whatever the limits, however many windows one waits before the first
      lock and however many locks one sits out after it. */
  lemma BoundIsReached(l: Limits, rounds: nat, more: nat)
    requires Proper(l)
    ensures var lock := 1 + rounds * l.window; var end := lock + more * l.lockout;
      exists guesses :: OneByOne(guesses, 1, end) && Guessed(l, guesses).firstLock == Some(lock)
        && Guessed(l, guesses).failures
          == l.max + (l.max - 1) * ((lock - 1) / l.window) + (end - lock) / l.lockout
  {
    PersistentTallies(l, rounds, more);
    Whole(rounds, l.window);
    Whole(more, l.lockout);
    assert Times(rounds, l.max - 1) == (l.max - 1) * rounds;
    hide Guessed, OneByOne, Persistent;
    assert OneByOne(Persistent(l, rounds, more), 1, 1 + rounds * l.window + more * l.lockout);
  }

  lemma QuietTallies(l: Limits, rounds: nat)
    requires Proper(l)
    ensures var end := 1 + Times(rounds, l.window);
      var guesses := Patient(l, rounds) + AtOnce(l.max - 1, end);
      && OneByOne(guesses, 1, end) && Guessed(l, guesses).firstLock.None?
      && Guessed(l, guesses).failures == Times(rounds, l.max - 1) + l.max - 1
  {
    hide Times, AfterGuesses, OneByOne, Patient, AtOnce;
    var end := 1 + Times(rounds, l.window);
    var a, b := Patient(l, rounds), AtOnce(l.max - 1, end);
    PatientTallies(l, rounds);
    AtOnceTallies(l, Guessed(l, a), l.max - 1, end);
    AtOnceOrdered(l.max - 1, end, end);
    AfterBoth(l, Tally(None, 0, None), a, b);
    OneByOneJoin(a, b, 1, end, end);
  }

  /** And so is the one for guesses that never lock. */
  lemma QuietBoundIsReached(l: Limits, rounds: nat)
    requires Proper(l)
    ensures var end := 1 + rounds * l.window;
      exists guesses :: OneByOne(guesses, 1, end) && Guessed(l, guesses).firstLock.None?
        && Guessed(l, guesses).failures == (l.max - 1) * ((end - 1) / l.window + 1)
  {
    QuietTallies(l, rounds);
    Whole(rounds, l.window);
    TimesIs(rounds, l.window);
    TimesIs(rounds, l.max - 1);
    hide *;
    var guesses := Patient(l, rounds) + AtOnce(l.max - 1, 1 + Times(rounds, l.window));
    assert OneByOne(guesses, 1, 1 + rounds * l.window) && Guessed(l, guesses).firstLock.None?;
  }

  lemma TimesIs(n: nat, length: int)
    ensures Times(n, length) == n * length && Times(n, length) + length == length * (n + 1)
  {
  }

  lemma Whole(times: nat, length: int)
    requires length > 0
    ensures times * length / length == times
  {
    Fits(times, length, times * length);
    NoMore(times, length);
  }

  lemma NoMore(times: nat, length: int)
    requires length > 0
    ensures times * length / length <= times
  {
    var q := times * length / length;
    if times + 1 <= q {
      Monotone(length, times + 1, q);
      assert false;
    }
  }

  /** Without a number of failures that locks, every attempt is allowed and nothing is remembered. */
  lemma {:induction false} NoLimitNoLock(l: Limits, ops: seq<Op>, now: Moment)
    requires l.max <= 0
    ensures RunOne(l, None, ops) == None && Allowed(l, RunOne(l, None, ops), now)
  {
    if ops != [] { NoLimitNoLock(l, ops[..|ops| - 1], now); }
  }

  // ─── Against the comments ───

  predicate OnceLocked(l: Limits, r: Option<AttemptRecord>) {
    r.Some? && r.value.lockedUntil != 0 && r.value.count >= l.max
  }

  /** Once a key is locked its record stays until an attempt succeeds, also when the lock has run
      out, and every failure in between locks the key again. */
  lemma {:induction false} LockStays(l: Limits, r: Option<AttemptRecord>, ops: seq<Op>)
    requires Proper(l) && OnceLocked(l, r)
    requires forall i :: 0 <= i < |ops| ==> !ops[i].SucceedOp? && (ops[i].FailOp? ==> ops[i].now > 0)
    ensures OnceLocked(l, RunOne(l, r, ops))
    ensures forall i :: 0 <= i < |ops| && ops[i].FailOp? ==> Locks(l, RunOne(l, r, ops[..i]), ops[i].now)
  {
    if ops != [] {
      var front := ops[..|ops| - 1];
      LockStays(l, r, front);
      forall i | 0 <= i < |ops| && ops[i].FailOp? ensures Locks(l, RunOne(l, r, ops[..i]), ops[i].now) {
        if i < |front| { assert front[..i] == ops[..i] && front[i] == ops[i]; }
      }
    }
  }

  /** Failures `gap` apart, without end. */
  function Steady(gap: int, n: nat): seq<Guess> {
    if n == 0 then [] else Steady(gap, n - 1) + AtOnce(1, 1 + Times(n, gap))
  }

  /** Failures are forgotten without any gap as long as the window: failing at every half of it,
      or a little more, never locks a key, however often. */
  lemma {:induction false} SteadyNeverLocks(l: Limits, gap: int, n: nat)
    requires Proper(l) && l.max > 2 && 0 < gap < l.window <= 2 * gap
    ensures var t := Guessed(l, Steady(gap, n));
      && t.firstLock.None? && t.failures == n
      && t.record == if n == 0 then None
           else if n % 2 == 1 then Some(AttemptRecord(1, 1 + Times(n, gap), 0))
           else Some(AttemptRecord(2, 1 + Times(n - 1, gap), 0))
  {
    hide Times, AfterGuesses;
    if n == 0 {
      NothingMore(l, Tally(None, 0, None), 0);
    } else {
      SteadyNeverLocks(l, gap, n - 1);
      TimesNext(n - 1, gap);
      if n > 1 { TimesNext(n - 2, gap); }
      var at := 1 + Times(n, gap);
      AfterBoth(l, Tally(None, 0, None), Steady(gap, n - 1), AtOnce(1, at));
      OneGuess(l, Guessed(l, Steady(gap, n - 1)), at);
    }
  }
}
