/**
 Brute-force protection: failures within a window lock a key out, each successive lockout
 twice as long up to a cap, and old records are swept.
 */
module BruteForce {
  import opened Wrappers

  datatype Record = Record(failures: int, firstFailure: int, lockedUntil: Option<int>, lockoutCount: nat)

  datatype Config = Config(maxFails: int, lockout: int, maxLockout: int, window: int)

  function Pow2(k: nat): (p: nat)
    ensures p >= 1
  {
    if k == 0 then 1 else 2 * Pow2(k - 1)
  }

  /** The first lockout doubled k times. */
  function Doubled(c: Config, k: nat): int { c.lockout * Pow2(k) }

  /**
   The k-th successive lockout: the first one as configured, then doubling up to the cap. Doubling a lockout
   that is not positive does not raise it, so the cap can only cut in at the first doubling.
   */
  function Lockout(c: Config, k: nat): int {
    if k == 0 then c.lockout
    else if Doubled(c, 1) > c.maxLockout || Doubled(c, k) > c.maxLockout then c.maxLockout
    else Doubled(c, k)
  }

  lemma DoubledNext(c: Config, k: nat)
    ensures Doubled(c, k + 1) == 2 * Doubled(c, k)
  {
  }

  lemma {:induction false} DoubledMonotone(c: Config, a: nat, b: nat)
    requires a <= b
    ensures c.lockout > 0 ==> 0 < Doubled(c, a) <= Doubled(c, b)
    ensures c.lockout <= 0 ==> Doubled(c, b) <= Doubled(c, a) <= 0
    decreases b - a
  {
    if a < b {
      DoubledMonotone(c, a, b - 1);
      DoubledNext(c, b - 1);
    } else {
      DoubledSign(c, a);
    }
  }

  lemma DoubledSign(c: Config, k: nat)
    ensures c.lockout > 0 ==> Doubled(c, k) > 0
    ensures c.lockout <= 0 ==> Doubled(c, k) <= 0
  {
  }

  /** The doubling loop; `peak` is the largest value the duration takes on the way. */
  method Backoff(c: Config, lockoutCount: nat) returns (duration: int, ghost peak: int)
    ensures duration == Lockout(c, lockoutCount)
    ensures 0 < c.lockout <= c.maxLockout ==> duration <= c.maxLockout && peak <= 2 * c.maxLockout
  {
    duration := c.lockout;
    peak := duration;
    var i := 0;
    while i < lockoutCount
      invariant 0 <= i <= lockoutCount
      invariant duration == Doubled(c, i)
      invariant i > 0 ==> Doubled(c, 1) <= c.maxLockout && duration <= c.maxLockout
      invariant 0 < c.lockout <= c.maxLockout ==> peak <= 2 * c.maxLockout
    {
      DoubledNext(c, i);
      duration := duration * 2;
      peak := if duration > peak then duration else peak;
      if duration > c.maxLockout {
        duration := c.maxLockout;
        CappedFromHere(c, i + 1, lockoutCount);
        return;
      }
      i := i + 1;
    }
  }

  /** Once a doubling is above the cap, so is the first doubling or every later one. */
  lemma CappedFromHere(c: Config, i: nat, k: nat)
    requires 1 <= i <= k && Doubled(c, i) > c.maxLockout
    ensures Lockout(c, k) == c.maxLockout
  {
    DoubledMonotone(c, 1, i);
    DoubledMonotone(c, i, k);
  }

  /** What a failure makes of the key's record. */
  function Failed(c: Config, attempts: map<string, Record>, key: string, now: int): Record {
    if key !in attempts || now - attempts[key].firstFailure > c.window then Record(1, now, None, 0)
    else
      var rec := attempts[key];
      if rec.failures + 1 >= c.maxFails
      then Record(0, now, Some(now + Lockout(c, rec.lockoutCount)), rec.lockoutCount + 1)
      else rec.(failures := rec.failures + 1)
  }

  predicate Locked(rec: Record, now: int) {
    rec.lockedUntil.Some? && rec.lockedUntil.value > now
  }

  /** How much longer the key is locked out; zero when it is not. */
  function Remaining(attempts: map<string, Record>, key: string, now: int): int {
    if key in attempts && Locked(attempts[key], now) then attempts[key].lockedUntil.value - now else 0
  }

  predicate Sweepable(c: Config, rec: Record, now: int) {
    now - rec.firstFailure > c.window * 4 && !Locked(rec, now)
  }

  function Swept(c: Config, attempts: map<string, Record>, now: int): map<string, Record> {
    map k | k in attempts && !Sweepable(c, attempts[k], now) :: attempts[k]
  }

  class BruteForceProtection {
    const config: Config
    var attempts: map<string, Record>

    constructor (config: Config)
      ensures this.config == config && attempts == map[]
    {
      this.config := config;
      attempts := map[];
    }

    method RecordFailure(key: string, now: int)
      modifies this
      ensures attempts == old(attempts)[key := Failed(config, old(attempts), key, now)]
      ensures key in attempts && attempts - {key} == old(attempts) - {key}
      ensures key !in old(attempts) || now - old(attempts)[key].firstFailure > config.window ==>
        attempts[key] == Record(1, now, None, 0)
      ensures key in old(attempts) && now - old(attempts)[key].firstFailure <= config.window ==>
        var rec := old(attempts)[key];
        if rec.failures + 1 < config.maxFails then attempts[key] == rec.(failures := rec.failures + 1)
        else
          && attempts[key].failures == 0 && attempts[key].firstFailure == now
          && attempts[key].lockoutCount == rec.lockoutCount + 1
          && attempts[key].lockedUntil.Some?
          && (config.lockout > 0 ==>
                attempts[key].lockedUntil.value - now ==
                  if rec.lockoutCount == 0 || config.lockout * Pow2(rec.lockoutCount) <= config.maxLockout
                  then config.lockout * Pow2(rec.lockoutCount) else config.maxLockout)
    {
      if key !in attempts || now - attempts[key].firstFailure > config.window {
        attempts := attempts[key := Record(1, now, None, 0)];
        return;
      }
      var rec := attempts[key];
      rec := rec.(failures := rec.failures + 1);
      if rec.failures >= config.maxFails {
        var duration, _ := Backoff(config, rec.lockoutCount);
        rec := Record(0, now, Some(now + duration), rec.lockoutCount + 1);
      }
      attempts := attempts[key := rec];
    }

    method RecordSuccess(key: string)
      modifies this
      ensures attempts == old(attempts) - {key}
    {
      attempts := attempts - {key};
    }

    method IsBlocked(key: string, now: int) returns (blocked: bool, remaining: int)
      ensures remaining == Remaining(attempts, key, now)
      ensures blocked <==> key in attempts && attempts[key].lockedUntil.Some? && now < attempts[key].lockedUntil.value
      ensures remaining == if blocked then attempts[key].lockedUntil.value - now else 0
    {
      if key !in attempts {
        return false, 0;
      }
      var rec := attempts[key];
      if rec.lockedUntil.Some? && rec.lockedUntil.value > now {
        return true, rec.lockedUntil.value - now;
      }
      return false, 0;
    }

    method Cleanup(now: int)
      modifies this
      ensures attempts == Swept(config, old(attempts), now)
      ensures forall k :: k in attempts ==> k in old(attempts) && attempts[k] == old(attempts)[k]
      ensures forall k :: k in old(attempts) ==>
        var rec := old(attempts)[k];
        (k !in attempts <==>
           now - rec.firstFailure > config.window * 4 && (rec.lockedUntil.None? || rec.lockedUntil.value <= now))
    {
      var rest := attempts.Keys;
      while rest != {}
        invariant rest <= old(attempts).Keys
        invariant forall k :: (
          k in attempts <==> k in old(attempts) && (k in rest || !Sweepable(config, old(attempts)[k], now)))
        invariant forall k :: k in attempts ==> attempts[k] == old(attempts)[k]
        decreases rest
      {
        var key :| key in rest;
        var rec := attempts[key];
        if now - rec.firstFailure > config.window * 4 && !(rec.lockedUntil.Some? && rec.lockedUntil.value > now) {
          attempts := attempts - {key};
        }
        rest := rest - {key};
      }
      assert attempts.Keys == Swept(config, old(attempts), now).Keys;
    }
  }

  // ─── Whole runs ───

  datatype Event =
    | Failure(key: string, now: int)
    | Success(key: string, now: int)
    | Query(key: string, now: int)
    | Sweep(now: int)

  /** `answers` is the remaining lockout every query was told. */
  datatype State = State(attempts: map<string, Record>, answers: seq<int>)

  const START := State(map[], [])

  function After(s: State, e: Event, c: Config): State {
    match e
    case Failure(key, now) => s.(attempts := s.attempts[key := Failed(c, s.attempts, key, now)])
    case Success(key, _) => s.(attempts := s.attempts - {key})
    case Query(key, now) => s.(answers := s.answers + [Remaining(s.attempts, key, now)])
    case Sweep(now) => s.(attempts := Swept(c, s.attempts, now))
  }

  function Run(s: State, events: seq<Event>, c: Config): State
    decreases events
  {
    if events == [] then s else Run(After(s, events[0], c), events[1..], c)
  }

  /** The clock does not go back. */
  predicate Clocked(events: seq<Event>, from: int)
    decreases events
  {
    events == [] || (from <= events[0].now && Clocked(events[1..], events[0].now))
  }

  function Unswept(events: seq<Event>): seq<Event> {
    if events == [] then []
    else if events[0].Sweep? then Unswept(events[1..])
    else [events[0]] + Unswept(events[1..])
  }

  /** The swept records are the others but for some that neither block nor count any more. */
  ghost predicate Simulates(c: Config, swept: map<string, Record>, full: map<string, Record>, now: int) {
    && (forall k :: k in swept ==> k in full && swept[k] == full[k])
    && (forall k :: k in full && k !in swept ==> now - full[k].firstFailure > c.window && !Locked(full[k], now))
  }

  lemma SimulatesStep(c: Config, s: State, f: State, e: Event, clock: int)
    requires Simulates(c, s.attempts, f.attempts, clock) && s.answers == f.answers && clock <= e.now && c.window >= 0
    ensures Simulates(c, After(s, e, c).attempts, if e.Sweep? then f.attempts else After(f, e, c).attempts, e.now)
    ensures After(s, e, c).answers == if e.Sweep? then f.answers else After(f, e, c).answers
  {
  }

  lemma {:induction false} SimulatesRun(c: Config, s: State, f: State, events: seq<Event>, clock: int)
    requires Simulates(c, s.attempts, f.attempts, clock) && s.answers == f.answers
    requires Clocked(events, clock) && c.window >= 0
    ensures Run(s, events, c).answers == Run(f, Unswept(events), c).answers
    decreases events
  {
    if events != [] {
      SimulatesStep(c, s, f, events[0], clock);
      if events[0].Sweep? {
        SimulatesRun(c, After(s, events[0], c), f, events[1..], events[0].now);
      } else {
        assert Unswept(events)[1..] == Unswept(events[1..]);
        SimulatesRun(c, After(s, events[0], c), After(f, events[0], c), events[1..], events[0].now);
      }
    }
  }

  /** Sweeping at any points of a run changes no answer about any key. */
  lemma SweepsAreUnobservable(c: Config, events: seq<Event>, clock: int)
    requires Clocked(events, clock) && c.window >= 0
    ensures Run(START, events, c).answers == Run(START, Unswept(events), c).answers
  {
    SimulatesRun(c, START, START, events, clock);
  }

  /** With a first lockout within the cap, the k-th lockout is the capped power of two. */
  lemma LockoutIsCappedPower(c: Config, k: nat)
    requires 0 < c.lockout <= c.maxLockout
    ensures Lockout(c, k) == if c.lockout * Pow2(k) <= c.maxLockout then c.lockout * Pow2(k) else c.maxLockout
    ensures c.lockout <= Lockout(c, k) <= c.maxLockout
    ensures Lockout(c, k) <= Lockout(c, k + 1)
  {
    DoubledMonotone(c, 0, k);
    DoubledMonotone(c, k, k + 1);
  }

  // ─── Successive lockouts ───

  /** The records after failures of one key at the given times, starting from none. */
  function Pressed(c: Config, key: string, times: seq<int>): map<string, Record> {
    if times == [] then map[]
    else
      var before := Pressed(c, key, times[..|times| - 1]);
      before[key := Failed(c, before, key, times[|times| - 1])]
  }

  /** Where the count that the n-th failure continues began: at the first failure, or at the last lockout. */
  function RoundStart(m: nat, n: nat): int
    requires m > 0
  {
    if n < m then 0 else n / m * m - 1
  }

  lemma DivideNext(n: nat, m: nat)
    requires m > 0
    ensures if n % m + 1 == m then (n + 1) % m == 0 && (n + 1) / m == n / m + 1
            else (n + 1) % m == n % m + 1 && (n + 1) / m == n / m
  {
    var q := if n % m + 1 == m then n / m + 1 else n / m;
    var r := if n % m + 1 == m then 0 else n % m + 1;
    assert n + 1 == q * m + r;
    DivideUnique(n + 1, m, q, r);
  }

  lemma DivideUnique(x: nat, m: nat, q: nat, r: nat)
    requires r < m && x == q * m + r
    ensures x / m == q && x % m == r
  {
    var d := x / m - q;
    assert d * m == r - x % m;
  }

  /** Every failure comes within the window of the count it continues. */
  ghost predicate Pressing(c: Config, times: seq<int>)
    requires c.maxFails >= 2
  {
    forall i :: 0 < i < |times| ==>
      0 <= RoundStart(c.maxFails, i) < i && times[i] - times[RoundStart(c.maxFails, i)] <= c.window
  }

  /**
   Under steady pressure every maxFails-th failure locks the key out, and no other does: after n failures there
   have been n / maxFails lockouts, the k-th of them for the k-th lockout duration.
   */
  lemma {:induction false} SuccessiveLockouts(c: Config, key: string, times: seq<int>)
    requires c.maxFails >= 2 && times != [] && Pressing(c, times)
    ensures var n, m := |times|, c.maxFails;
      && 0 <= RoundStart(m, n) < n
      && Pressed(c, key, times) == map[key := Record(n % m, times[RoundStart(m, n)],
           if n < m then None else Some(times[RoundStart(m, n)] + Lockout(c, n / m - 1)), n / m)]
  {
    var n, m := |times|, c.maxFails;
    if n > 1 {
      var before := times[..n - 1];
      SuccessiveLockouts(c, key, before);
      DivideNext(n - 1, m);
      RoundsAgree(m, n);
      assert times[n - 1] - times[RoundStart(m, n - 1)] <= c.window;
      assert Pressed(c, key, before)[key].firstFailure == times[RoundStart(m, n - 1)];
    } else {
      assert times[..0] == [];
      DivideUnique(1, m, 0, 1);
    }
  }

  lemma RoundsAgree(m: nat, n: nat)
    requires m >= 2 && n > 1
    ensures if (n - 1) % m + 1 == m then n >= m && RoundStart(m, n) == n - 1
            else RoundStart(m, n) == RoundStart(m, n - 1) && (n < m <==> n - 1 < m)
  {
    DivideNext(n - 1, m);
    assert n == n / m * m + n % m;
    if n < m {
      DivideUnique(n - 1, m, 0, n - 1);
    } else if n == m {
      DivideUnique(n - 1, m, 0, n - 1);
      DivideUnique(n, m, 1, 0);
    }
  }

  /** With a threshold of one the first failure still does not lock: opening a record never does. */
  lemma FirstFailureNeverLocks(c: Config, key: string, now: int)
    ensures Remaining(Pressed(c, key, [now]), key, now) == 0
  {
  }

  // ─── Failures that are recorded only while the key is not locked out ───

  /**
   The gate in front of the recording, for one key: while the key is locked out its caller is turned away before
   anything can fail. Failures of other keys are recorded at any time.
   */
  predicate Gated(s: State, events: seq<Event>, c: Config, key: string)
    decreases events
  {
    events == [] ||
    ((events[0] == Failure(key, events[0].now) ==> Remaining(s.attempts, key, events[0].now) == 0)
      && Gated(After(s, events[0], c), events[1..], c, key))
  }

  /** Every lockout but the last was at most the window long. */
  predicate EarlierWithinWindow(c: Config, k: nat) {
    forall j: nat :: j + 1 < k ==> Lockout(c, j) <= c.window
  }

  /** A record's lockout runs from its latest start, and earlier ones were short enough to be continued. */
  predicate Escalated(c: Config, rec: Record) {
    && (rec.lockoutCount == 0 ==> rec.lockedUntil.None?)
    && (rec.lockoutCount > 0 ==> rec.lockedUntil == Some(rec.firstFailure + Lockout(c, rec.lockoutCount - 1)))
    && EarlierWithinWindow(c, rec.lockoutCount)
  }

  function Max(a: int, b: int): int { if a >= b then a else b }

  /** What the first lockout and the window allow a lockout to last. */
  function LongestLockout(c: Config): int { Max(c.lockout, 2 * c.window) }

  predicate KeyEscalated(c: Config, s: State, key: string, clock: int) {
    key in s.attempts ==> Escalated(c, s.attempts[key]) && s.attempts[key].firstFailure <= clock
  }

  lemma EscalatedIsBounded(c: Config, rec: Record)
    requires c.window >= 0 && Escalated(c, rec) && rec.lockoutCount > 0
    ensures Lockout(c, rec.lockoutCount - 1) <= LongestLockout(c)
  {
    if rec.lockoutCount > 1 {
      assert Lockout(c, rec.lockoutCount - 2) <= c.window;
    }
  }

  function EndClock(events: seq<Event>, clock: int): int {
    if events == [] then clock else EndClock(events[1..], events[0].now)
  }

  lemma {:induction false} EscalatedRun(c: Config, s: State, events: seq<Event>, key: string, clock: int)
    requires KeyEscalated(c, s, key, clock) && Gated(s, events, c, key) && Clocked(events, clock)
    ensures KeyEscalated(c, Run(s, events, c), key, EndClock(events, clock))
    decreases events
  {
    if events != [] {
      EscalatedRun(c, After(s, events[0], c), events[1..], key, events[0].now);
    }
  }

  /**
   Behind the gate the window bounds the backoff, whatever the cap: at no time is a key locked out for longer than the
   first lockout or twice the window, because after a longer lockout its next failure opens a fresh record.
   */
  lemma GatedLockoutIsBounded(c: Config, events: seq<Event>, clock: int, key: string, now: int)
    requires c.window >= 0 && Gated(START, events, c, key) && Clocked(events, clock) && now >= EndClock(events, clock)
    ensures Remaining(Run(START, events, c).attempts, key, now) <= Max(c.lockout, 2 * c.window)
  {
    EscalatedRun(c, START, events, key, clock);
    if Remaining(Run(START, events, c).attempts, key, now) > 0 {
      EscalatedIsBounded(c, Run(START, events, c).attempts[key]);
    }
  }

  /** Some gated run has locked the key out k times in a row, the last time for the k-th duration. */
  ghost predicate Reaches(c: Config, key: string, k: nat) {
    exists events, clock ::
      Gated(START, events, c, key) && Clocked(events, clock) && LockedOutTimes(Run(START, events, c).attempts, key, k)
  }

  predicate LockedOutTimes(attempts: map<string, Record>, key: string, k: nat) {
    key in attempts && attempts[key].lockoutCount == k
  }

  /** Failures at one instant until the key locks, then at the end of its lockout again, and so on. */
  lemma Climb(c: Config, s: State, key: string, now: int, k: nat) returns (events: seq<Event>)
    requires c.window >= 0 && EarlierWithinWindow(c, k) && key in s.attempts && s.attempts[key].lockoutCount < k
    requires !Locked(s.attempts[key], now) && now - s.attempts[key].firstFailure <= c.window
    ensures Gated(s, events, c, key) && Clocked(events, now) && LockedOutTimes(Run(s, events, c).attempts, key, k)
    decreases k - s.attempts[key].lockoutCount, Max(0, c.maxFails - s.attempts[key].failures)
  {
    var rec, e := s.attempts[key], Failure(key, now);
    var t := After(s, e, c);
    var rest: seq<Event> := [];
    if rec.failures + 1 < c.maxFails {
      rest := Climb(c, t, key, now, k);
    } else if rec.lockoutCount + 1 < k {
      var later := now + Max(0, Lockout(c, rec.lockoutCount));
      rest := Climb(c, t, key, later, k);
    }
    events := [e] + rest;
    assert events[1..] == rest;
  }

  /** The k-th lockout in a row is reached behind the gate exactly if every earlier one is at most the window long. */
  lemma KthLockoutIff(c: Config, key: string, k: nat)
    requires c.window >= 0 && k >= 1
    ensures Reaches(c, key, k) <==> forall j: nat :: j + 1 < k ==> Lockout(c, j) <= c.window
  {
    if EarlierWithinWindow(c, k) {
      var first := Failure(key, 0);
      var rest := Climb(c, After(START, first, c), key, 0, k);
      var events := [first] + rest;
      assert events[1..] == rest;
      assert Clocked(events, 0);
    }
    if Reaches(c, key, k) {
      var events, clock :| Gated(START, events, c, key) && Clocked(events, clock)
        && LockedOutTimes(Run(START, events, c).attempts, key, k);
      EscalatedRun(c, START, events, key, clock);
      assert Escalated(c, Run(START, events, c).attempts[key]);
    }
  }

  /** The k-th lockout lasts the k-th duration: behind the gate a record's lockout runs from its latest start. */
  lemma GatedLockoutDuration(c: Config, events: seq<Event>, clock: int, key: string, k: nat)
    requires c.window >= 0 && Gated(START, events, c, key) && Clocked(events, clock)
    requires k >= 1 && LockedOutTimes(Run(START, events, c).attempts, key, k)
    ensures var rec := Run(START, events, c).attempts[key];
      rec.lockedUntil == Some(rec.firstFailure + Lockout(c, k - 1))
  {
    EscalatedRun(c, START, events, key, clock);
  }
}
