/** The retry policy of the bridge launch: waves of preflight retries, with a longer wait between waves. */
module LaunchRetries {
  const MAX_PREFLIGHT_RETRIES: nat := 59
  const MAX_RECOVERY_WAVES: nat := 20
  const PREFLIGHT_DELAY: nat := 1000
  const RECOVERY_DELAY: nat := 15000
  const UINT64_MAX: nat := 0xFFFF_FFFF_FFFF_FFFF

  datatype Retry = Retry(retries: nat, recoveries: nat, next: nat)

  const FRESH := Retry(0, 0, 0)

  // The counters never leave their ranges.
  predicate Bounded(r: Retry) {
    r.retries <= MAX_PREFLIGHT_RETRIES && r.recoveries <= MAX_RECOVERY_WAVES
  }

  predicate Ready(r: Retry, now: nat) {
    now >= r.next
  }

  predicate MayRetry(r: Retry, ok: bool, retryBeforeLoad: bool, now: nat) {
    !ok && retryBeforeLoad && r.retries < MAX_PREFLIGHT_RETRIES && now <= UINT64_MAX - PREFLIGHT_DELAY
  }

  function Scheduled(r: Retry, ok: bool, retryBeforeLoad: bool, now: nat): Retry {
    if MayRetry(r, ok, retryBeforeLoad, now) then Retry(r.retries + 1, r.recoveries, now + PREFLIGHT_DELAY) else r
  }

  predicate MayRecover(r: Retry, now: nat) {
    r.recoveries < MAX_RECOVERY_WAVES && now <= UINT64_MAX - RECOVERY_DELAY
  }

  function Recovered(r: Retry, now: nat): Retry {
    if MayRecover(r, now) then Retry(0, r.recoveries + 1, now + RECOVERY_DELAY) else r
  }

  // What is granted, in numbers: 59 retries a wave, a second apart, and 20 further waves, fifteen seconds
  // apart; until then nothing is due.
  lemma GrantsInNumbers(r: Retry, ok: bool, retryBeforeLoad: bool, now: nat, later: nat)
    ensures MayRetry(r, ok, retryBeforeLoad, now) <==>
        !ok && retryBeforeLoad && r.retries <= 58 && now + 1000 <= 0xFFFF_FFFF_FFFF_FFFF
    ensures MayRecover(r, now) <==> r.recoveries <= 19 && now + 15000 <= 0xFFFF_FFFF_FFFF_FFFF
    ensures MayRetry(r, ok, retryBeforeLoad, now) ==>
      var t := Scheduled(r, ok, retryBeforeLoad, now);
      && t.retries == r.retries + 1 && t.recoveries == r.recoveries && (Ready(t, later) <==> later >= now + 1000)
    ensures MayRecover(r, now) ==>
      var t := Recovered(r, now);
      && t.retries == 0 && t.recoveries == r.recoveries + 1 && (Ready(t, later) <==> later >= now + 15000)
  {
  }

  class LaunchRetry {
    var retries: nat
    var recoveries: nat
    var next: nat

    ghost function State(): Retry
      reads this
    {
      Retry(retries, recoveries, next)
    }

    constructor ()
      ensures State() == FRESH
    {
      retries, recoveries, next := 0, 0, 0;
    }

    method Schedule(ok: bool, retryBeforeLoad: bool, now: nat) returns (granted: bool)
      modifies this
      ensures granted == MayRetry(old(State()), ok, retryBeforeLoad, now)
      ensures State() == Scheduled(old(State()), ok, retryBeforeLoad, now)
    {
      if ok || !retryBeforeLoad || retries >= MAX_PREFLIGHT_RETRIES || now > UINT64_MAX - PREFLIGHT_DELAY {
        return false;
      }
      retries := retries + 1;
      next := now + PREFLIGHT_DELAY;
      return true;
    }

    method ScheduleRecovery(now: nat) returns (granted: bool)
      modifies this
      ensures granted == MayRecover(old(State()), now)
      ensures State() == Recovered(old(State()), now)
    {
      if recoveries >= MAX_RECOVERY_WAVES || now > UINT64_MAX - RECOVERY_DELAY {
        return false;
      }
      recoveries := recoveries + 1;
      retries := 0;
      next := now + RECOVERY_DELAY;
      return true;
    }

    method Reset()
      modifies this
      ensures State() == FRESH
    {
      retries, recoveries, next := 0, 0, 0;
    }
  }

  // ----- Between resets -----

  datatype Call = Schedule(ok: bool, retryBeforeLoad: bool, now: nat) | Recover(now: nat)

  function After(r: Retry, call: Call): Retry {
    match call
    case Schedule(ok, retryBeforeLoad, now) => Scheduled(r, ok, retryBeforeLoad, now)
    case Recover(now) => Recovered(r, now)
  }

  predicate Grants(r: Retry, call: Call) {
    match call
    case Schedule(ok, retryBeforeLoad, now) => MayRetry(r, ok, retryBeforeLoad, now)
    case Recover(now) => MayRecover(r, now)
  }

  // How many of the calls are granted, starting from r.
  function Granted(r: Retry, calls: seq<Call>): nat
    decreases |calls|
  {
    if calls == [] then 0 else (if Grants(r, calls[0]) then 1 else 0) + Granted(After(r, calls[0]), calls[1..])
  }

  function Left(r: Retry): int {
    MAX_PREFLIGHT_RETRIES - r.retries + (MAX_RECOVERY_WAVES - r.recoveries) * (MAX_PREFLIGHT_RETRIES + 1)
  }

  lemma {:induction false} GrantsUseUp(r: Retry, calls: seq<Call>)
    requires Bounded(r)
    ensures Granted(r, calls) <= Left(r)
    decreases |calls|
  {
    if calls != [] {
      assert Bounded(After(r, calls[0]));
      GrantsUseUp(After(r, calls[0]), calls[1..]);
    }
  }

  // Between resets at most 1,259 retries are granted, whatever fails and when.
  lemma AtMost1259(calls: seq<Call>)
    ensures Granted(FRESH, calls) <= 1259
  {
    GrantsUseUp(FRESH, calls);
  }

  // The calls of a session in which every load fails before it starts: a retry while one is
  // granted, else a recovery wave.
  function Failing(r: Retry, n: nat): (calls: seq<Call>)
    ensures |calls| == n
    decreases n
  {
    if n == 0 then []
    else
      var call := if r.retries < MAX_PREFLIGHT_RETRIES then Schedule(false, true, 0) else Recover(0);
      [call] + Failing(After(r, call), n - 1)
  }

  lemma {:induction false} FailingGrants(r: Retry, n: nat)
    requires Bounded(r) && n <= Left(r)
    ensures Granted(r, Failing(r, n)) == n
    decreases n
  {
    if n > 0 {
      var calls := Failing(r, n);
      assert calls[1..] == Failing(After(r, calls[0]), n - 1);
      FailingGrants(After(r, calls[0]), n - 1);
    }
  }

  // The bound is reached.
  lemma Reaches1259()
    ensures exists calls :: Granted(FRESH, calls) == 1259
  {
    FailingGrants(FRESH, 1259);
  }
}
