/** Polling a container until it is ready, has died, or the deadline has passed. */
module HealthWait {
  import opened Domain
  import opened Persistence

  const HEALTH_POLL_INTERVAL: Duration := 500_000_000

  datatype HealthState = NoHealthcheck | Starting | Healthy | Unhealthy

  datatype Inspection =
    | Running(port: Option<nat>, health: Option<HealthState>)
    | Exited(exitCode: int)
    | NotFound
    | InspectFails

  datatype WaitError =
    | ContainerNotHealthy(exitCode: Option<int>)
    | HealthCheckTimeout(waitedSecs: int)
    | RuntimeFails

  /** What the `k`-th poll sees, and the time at which the deadline is checked after it. */
  datatype Polls = Polls(startedAt: Instant, sees: nat -> Inspection, checkedAt: nat -> Instant)

  /** Time does not run backwards, and each sleep lasts at least the poll interval. */
  ghost predicate Paced(polls: Polls) {
    && polls.startedAt <= polls.checkedAt(0)
    && forall j: nat, k: nat :: k == j + 1 ==> polls.checkedAt(j) + HEALTH_POLL_INTERVAL <= polls.checkedAt(k)
  }

  predicate Ready(seen: Inspection, requiresHealthcheck: bool) {
    seen.Running? && (requiresHealthcheck ==> seen.health == Some(Healthy))
  }

  /** An inspection that ends the wait by itself; an unhealthy or starting container does not. */
  predicate Decisive(seen: Inspection, requiresHealthcheck: bool) {
    !seen.Running? || Ready(seen, requiresHealthcheck)
  }

  function Decision(seen: Inspection): Result<Option<nat>, WaitError> {
    match seen
    case Running(port, _) => Ok(port)
    case Exited(code) => Err(ContainerNotHealthy(Some(code)))
    case NotFound => Err(ContainerNotHealthy(None))
    case InspectFails => Err(RuntimeFails)
  }

  /** The rules by which an inspection is judged, case by case. */
  lemma RulesExactly(seen: Inspection, requiresHealthcheck: bool)
    ensures Ready(seen, requiresHealthcheck) <==>
              exists port, health :: seen == Running(port, health) && (requiresHealthcheck ==> health == Some(Healthy))
    ensures !Decisive(seen, requiresHealthcheck) <==>
              requiresHealthcheck && exists port, health :: seen == Running(port, health) && health != Some(Healthy)
    ensures match seen
            case Running(port, _) => Decision(seen) == Ok(port)
            case Exited(code) => Decision(seen) == Err(ContainerNotHealthy(Some(code)))
            case NotFound => Decision(seen) == Err(ContainerNotHealthy(None))
            case InspectFails => Decision(seen) == Err(RuntimeFails)
  {
    if seen.Running? {
      assert seen == Running(seen.port, seen.health);
    }
  }

  /** The wait goes on after the `k`-th poll. */
  predicate GoesOn(polls: Polls, timeout: Duration, requiresHealthcheck: bool, k: nat) {
    !Decisive(polls.sees(k), requiresHealthcheck) && polls.checkedAt(k) < polls.startedAt + timeout
  }

  /** The wait ends with the `k`-th poll. */
  ghost predicate EndsAt(polls: Polls, timeout: Duration, requiresHealthcheck: bool, k: nat) {
    !GoesOn(polls, timeout, requiresHealthcheck, k)
    && forall j: nat :: j < k ==> GoesOn(polls, timeout, requiresHealthcheck, j)
  }

  function ResultAt(polls: Polls, timeout: Duration, requiresHealthcheck: bool, k: nat): Result<Option<nat>, WaitError> {
    if Decisive(polls.sees(k), requiresHealthcheck) then Decision(polls.sees(k))
    else Err(HealthCheckTimeout(timeout / SECOND))
  }

  /** A duration in poll intervals, rounded up. */
  function IntervalsIn(timeout: Duration): int {
    (timeout + HEALTH_POLL_INTERVAL - 1) / HEALTH_POLL_INTERVAL
  }

  lemma EarlierOnes(polls: Polls, timeout: Duration, requiresHealthcheck: bool, n: nat)
    requires forall j: nat :: j < n ==> GoesOn(polls, timeout, requiresHealthcheck, j)
    ensures forall j: nat :: j < n ==>
              && polls.sees(j).Running? && requiresHealthcheck && polls.sees(j).health != Some(Healthy)
              && polls.checkedAt(j) < polls.startedAt + timeout
  {
    forall j: nat | j < n
      ensures polls.sees(j).Running? && requiresHealthcheck && polls.sees(j).health != Some(Healthy)
              && polls.checkedAt(j) < polls.startedAt + timeout
    {
      assert GoesOn(polls, timeout, requiresHealthcheck, j);
    }
  }

  method WaitUntilHealthy(polls: Polls, timeout: Duration, requiresHealthcheck: bool)
    returns (result: Result<Option<nat>, WaitError>, inspections: nat)
    requires Paced(polls) && timeout >= 0
    ensures 1 <= inspections <= IntervalsIn(timeout) + 1
    ensures EndsAt(polls, timeout, requiresHealthcheck, inspections - 1)
    ensures result == ResultAt(polls, timeout, requiresHealthcheck, inspections - 1)
    ensures var last := polls.sees(inspections - 1);
            match last
            case Running(port, health) =>
              if requiresHealthcheck ==> health == Some(Healthy) then result == Ok(port)
              else result == Err(HealthCheckTimeout(timeout / 1_000_000_000))
                   && polls.checkedAt(inspections - 1) >= polls.startedAt + timeout
            case Exited(code) => result == Err(ContainerNotHealthy(Some(code)))
            case NotFound => result == Err(ContainerNotHealthy(None))
            case InspectFails => result == Err(RuntimeFails)
    ensures forall k: nat :: k < inspections - 1 ==>
              && polls.sees(k).Running? && requiresHealthcheck && polls.sees(k).health != Some(Healthy)
              && polls.checkedAt(k) < polls.startedAt + timeout
    ensures inspections > 1 ==> (inspections - 2) * 500_000_000 < timeout
  {
    var deadline := polls.startedAt + timeout;
    inspections := 0;
    while true
      invariant forall j: nat :: j < inspections ==> GoesOn(polls, timeout, requiresHealthcheck, j)
      invariant inspections <= IntervalsIn(timeout)
      invariant polls.startedAt + inspections * HEALTH_POLL_INTERVAL <= polls.checkedAt(inspections)
      decreases deadline - polls.checkedAt(inspections)
    {
      var k := inspections;
      var seen := polls.sees(k);
      inspections := inspections + 1;
      EarlierOnes(polls, timeout, requiresHealthcheck, k);
      match seen {
        case Running(port, health) =>
          var ready := if requiresHealthcheck then health == Some(Healthy) else true;
          if ready {
            return Ok(port), inspections;
          }
        case Exited(code) => return Err(ContainerNotHealthy(Some(code))), inspections;
        case NotFound => return Err(ContainerNotHealthy(None)), inspections;
        case InspectFails => return Err(RuntimeFails), inspections;
      }
      if polls.checkedAt(k) >= deadline {
        return Err(HealthCheckTimeout(timeout / SECOND)), inspections;
      }
      assert polls.checkedAt(k) + HEALTH_POLL_INTERVAL <= polls.checkedAt(k + 1);
      assert k * HEALTH_POLL_INTERVAL < timeout;
    }
  }

  /** The same in words that name no rule of this module: what the poll that ends a wait has seen, what
      every earlier one has, and how many there can be. */
  lemma EndsExactly(polls: Polls, timeout: Duration, requiresHealthcheck: bool, k: nat)
    ensures EndsAt(polls, timeout, requiresHealthcheck, k) <==>
              && (forall j: nat :: j < k ==>
                    && polls.sees(j).Running? && requiresHealthcheck && polls.sees(j).health != Some(Healthy)
                    && polls.checkedAt(j) < polls.startedAt + timeout)
              && (|| !polls.sees(k).Running? || !requiresHealthcheck || polls.sees(k).health == Some(Healthy)
                  || polls.checkedAt(k) >= polls.startedAt + timeout)
    ensures var result := ResultAt(polls, timeout, requiresHealthcheck, k);
            match polls.sees(k)
            case Running(port, health) =>
              result == if requiresHealthcheck ==> health == Some(Healthy) then Ok(port)
                        else Err(HealthCheckTimeout(timeout / 1_000_000_000))
            case Exited(code) => result == Err(ContainerNotHealthy(Some(code)))
            case NotFound => result == Err(ContainerNotHealthy(None))
            case InspectFails => result == Err(RuntimeFails)
  {
    if !EndsAt(polls, timeout, requiresHealthcheck, k) && !GoesOn(polls, timeout, requiresHealthcheck, k) {
      var j: nat :| j < k && !GoesOn(polls, timeout, requiresHealthcheck, j);
    }
    if EndsAt(polls, timeout, requiresHealthcheck, k) {
      EarlierOnes(polls, timeout, requiresHealthcheck, k);
    }
  }

  /** Polls exactly half a second apart are admitted. */
  lemma HalfSecondPollsArePaced(startedAt: Instant, sees: nat -> Inspection)
    ensures Paced(Polls(startedAt, sees, k => startedAt + k * 500_000_000))
  {
  }

  /** There is one poll at which a wait ends, so the polls alone determine the result. */
  lemma EndsOnce(polls: Polls, timeout: Duration, requiresHealthcheck: bool, j: nat, k: nat)
    requires EndsAt(polls, timeout, requiresHealthcheck, j) && EndsAt(polls, timeout, requiresHealthcheck, k)
    ensures j == k
  {
  }

  lemma {:induction false} CheckedAtLeast(polls: Polls, j: nat, k: nat)
    requires Paced(polls) && j <= k
    ensures polls.checkedAt(j) + (k - j) * HEALTH_POLL_INTERVAL <= polls.checkedAt(k)
  {
    if j == k {
    } else {
      CheckedAtLeast(polls, j, k - 1);
      assert polls.checkedAt(k - 1) + HEALTH_POLL_INTERVAL <= polls.checkedAt(k - 1 + 1);
    }
  }

  /** The `d`-th inspection is decisive, and none before it was, nor was it too late. */
  ghost predicate FirstInTime(polls: Polls, timeout: Duration, requiresHealthcheck: bool, d: nat) {
    && Decisive(polls.sees(d), requiresHealthcheck)
    && forall j: nat :: j < d ==> GoesOn(polls, timeout, requiresHealthcheck, j)
  }

  lemma NoneBeforeTimeout(polls: Polls, timeout: Duration, requiresHealthcheck: bool, k: nat, d: nat)
    requires Paced(polls) && EndsAt(polls, timeout, requiresHealthcheck, k)
    requires !Decisive(polls.sees(k), requiresHealthcheck) && Decisive(polls.sees(d), requiresHealthcheck)
    ensures d > k && polls.checkedAt(d) >= polls.startedAt + timeout + HEALTH_POLL_INTERVAL
  {
    assert d < k ==> GoesOn(polls, timeout, requiresHealthcheck, d);
    CheckedAtLeast(polls, k, d);
  }

  /** The first decisive inspection made in time decides; a wait times out only if none was made, and
      then not before the deadline. */
  lemma FirstDecisiveDecides(polls: Polls, timeout: Duration, requiresHealthcheck: bool, k: nat)
    requires Paced(polls) && EndsAt(polls, timeout, requiresHealthcheck, k)
    ensures var result := ResultAt(polls, timeout, requiresHealthcheck, k);
            && (result.Ok? <==> Ready(polls.sees(k), requiresHealthcheck))
            && (forall d: nat :: FirstInTime(polls, timeout, requiresHealthcheck, d) ==> result == Decision(polls.sees(d)))
            && (result.Err? && result.error.HealthCheckTimeout? ==>
                  && polls.checkedAt(k) >= polls.startedAt + timeout
                  && forall d: nat :: Decisive(polls.sees(d), requiresHealthcheck) ==>
                       d > k && polls.checkedAt(d) >= polls.startedAt + timeout + HEALTH_POLL_INTERVAL)
  {
    forall d: nat | FirstInTime(polls, timeout, requiresHealthcheck, d)
      ensures ResultAt(polls, timeout, requiresHealthcheck, k) == Decision(polls.sees(d))
    {
      EndsOnce(polls, timeout, requiresHealthcheck, d, k);
    }
    if !Decisive(polls.sees(k), requiresHealthcheck) {
      forall d: nat | Decisive(polls.sees(d), requiresHealthcheck)
        ensures d > k && polls.checkedAt(d) >= polls.startedAt + timeout + HEALTH_POLL_INTERVAL
      {
        NoneBeforeTimeout(polls, timeout, requiresHealthcheck, k, d);
      }
    }
  }
}
