/**
 Login lockout: the failure counter and the temporary lock on a user row, and what they
 amount to over any history of logins and password changes.
 */
module LoginLockout {
  import opened Numbers
  import opened Options

  datatype Status = Active | PendingActivation | Disabled

  datatype Outcome = Locked | UserDisabled | InvalidCredentials | EmailNotVerified | Success

  /** The committed columns of the user row. Times are in one unit, the lock duration too. */
  datatype Row = Row(failedCount: int, lockedUntil: Option<int>, lastLoginAt: Option<int>)

  datatype Policy = Policy(maxFailures: int, lockTime: int)

  const NEW_ROW := Row(0, None, None)

  /** How many wrong passwords in a row lock the account: a threshold of 0 or less acts as 1. */
  function Limit(policy: Policy): (m: int)
    ensures m >= 1
  {
    if policy.maxFailures < 1 then 1 else policy.maxFailures
  }

  // ---------- one login ----------

  function LoginOutcome(row: Row, status: Status, correct: bool, now: int): Outcome {
    if row.lockedUntil.Some? && row.lockedUntil.value > now then Locked
    else if status == Disabled then UserDisabled
    else if !correct then InvalidCredentials
    else if status == PendingActivation then EmailNotVerified
    else Success
  }

  /** Only a wrong password and a success are committed; an expired lock that is merely seen stays. */
  function AfterLogin(row: Row, status: Status, correct: bool, now: int, policy: Policy): Row {
    match LoginOutcome(row, status, correct, now)
    case InvalidCredentials =>
      var count := if row.lockedUntil.Some? then 1 else row.failedCount + 1;
      if count >= policy.maxFailures then row.(failedCount := 0, lockedUntil := Some(now + policy.lockTime))
      else row.(failedCount := count, lockedUntil := None)
    case Success => Row(0, None, Some(now))
    case _ => row
  }

  /** The row in the session after a login: an expired lock is taken off before anything else is looked at. */
  function InSession(row: Row, status: Status, correct: bool, now: int, policy: Policy): Row {
    var outcome := LoginOutcome(row, status, correct, now);
    if outcome in {InvalidCredentials, Success} then AfterLogin(row, status, correct, now, policy)
    else if outcome != Locked && row.lockedUntil.Some? then row.(failedCount := 0, lockedUntil := None)
    else row
  }

  /** The user object of one session, in front of the committed row. */
  class User {
    var committed: Row
    var failedLoginCount: int
    var lockedUntil: Option<int>
    var lastLoginAt: Option<int>

    constructor (row: Row)
      ensures committed == row && Fields() == row
    {
      committed := row;
      failedLoginCount := row.failedCount;
      lockedUntil := row.lockedUntil;
      lastLoginAt := row.lastLoginAt;
    }

    function Fields(): Row
      reads this
    {
      Row(failedLoginCount, lockedUntil, lastLoginAt)
    }

    method Commit()
      modifies this`committed
      ensures committed == Fields()
    {
      committed := Row(failedLoginCount, lockedUntil, lastLoginAt);
    }

    method Login(status: Status, correct: bool, now: int, policy: Policy) returns (outcome: Outcome)
      requires Fields() == committed
      modifies this
      ensures outcome == LoginOutcome(old(committed), status, correct, now)
      ensures committed == AfterLogin(old(committed), status, correct, now, policy)
      ensures Fields() == InSession(old(committed), status, correct, now, policy)
    {
      if lockedUntil.Some? {
        if lockedUntil.value > now {
          return Locked;
        }
        lockedUntil := None;
        failedLoginCount := 0;
      }
      if status == Disabled {
        return UserDisabled;
      }
      if !correct {
        failedLoginCount := failedLoginCount + 1;
        if failedLoginCount >= policy.maxFailures {
          lockedUntil := Some(now + policy.lockTime);
          failedLoginCount := 0;
        }
        Commit();
        return InvalidCredentials;
      }
      if status == PendingActivation {
        return EmailNotVerified;
      }
      failedLoginCount := 0;
      lockedUntil := None;
      lastLoginAt := Some(now);
      Commit();
      return Success;
    }

    /** The part of `reset_password` and `change_password` that concerns the lock. */
    method ClearLock()
      requires Fields() == committed
      modifies this
      ensures Fields() == committed == old(committed).(failedCount := 0, lockedUntil := None)
    {
      failedLoginCount := 0;
      lockedUntil := None;
      Commit();
    }
  }

  // ---------- histories ----------

  datatype Event = Attempt(status: Status, correct: bool, now: int) | PasswordSet

  function Step(row: Row, e: Event, policy: Policy): Row {
    match e
    case Attempt(status, correct, now) => AfterLogin(row, status, correct, now, policy)
    case PasswordSet => row.(failedCount := 0, lockedUntil := None)
  }

  /** The row of a new account after a history. */
  function Run(events: seq<Event>, policy: Policy): Row {
    if events == [] then NEW_ROW
    else Step(Run(events[..|events| - 1], policy), events[|events| - 1], policy)
  }

  /** When a wrong password was checked since the last success or password change, oldest first. */
  function Failures(events: seq<Event>, policy: Policy): seq<int> {
    if events == [] then []
    else
      var before := Run(events[..|events| - 1], policy);
      var earlier := Failures(events[..|events| - 1], policy);
      match events[|events| - 1]
      case PasswordSet => []
      case Attempt(status, correct, now) =>
        match LoginOutcome(before, status, correct, now)
        case InvalidCredentials => earlier + [now]
        case Success => []
        case _ => earlier
  }

  /** Counter and lock that belong to the checks since the last clearing. */
  predicate Matches(row: Row, failures: seq<int>, policy: Policy) {
    && row.failedCount == |failures| % Limit(policy)
    && row.lockedUntil ==
         if failures != [] && |failures| % Limit(policy) == 0 then Some(failures[|failures| - 1] + policy.lockTime)
         else None
  }

  /** The counter is the number of checked wrong passwords modulo the limit; the account
      carries a lock exactly when that number is a positive multiple of the limit. */
  lemma {:induction false} RowFromFailures(events: seq<Event>, policy: Policy)
    ensures Matches(Run(events, policy), Failures(events, policy), policy)
  {
    if events != [] {
      var earlier := events[..|events| - 1];
      RowFromFailures(earlier, policy);
      Successor(|Failures(earlier, policy)|, Limit(policy));
    }
  }

  /** In particular the counter stays below the limit, and a lock comes with a counter of 0. */
  lemma CounterBelowLimit(events: seq<Event>, policy: Policy)
    ensures var row := Run(events, policy);
      0 <= row.failedCount < Limit(policy) && (row.lockedUntil.Some? ==> row.failedCount == 0)
  {
    RowFromFailures(events, policy);
  }

  // ---------- how fast passwords can be tried ----------

  /** The clock of the attempts does not run backwards. */
  predicate Monotone(events: seq<Event>) {
    forall i, j :: 0 <= i < j < |events| && events[i].Attempt? && events[j].Attempt? ==> events[i].now <= events[j].now
  }

  lemma {:induction false} FailuresAreEvents(events: seq<Event>, policy: Policy, k: nat)
    requires k < |Failures(events, policy)|
    ensures exists i :: 0 <= i < |events| && events[i].Attempt? && events[i].now == Failures(events, policy)[k]
    decreases |events|
  {
    var n := |events| - 1;
    var earlier := events[..n];
    if k < |Failures(earlier, policy)| {
      FailuresAreEvents(earlier, policy, k);
      var i :| 0 <= i < |earlier| && earlier[i].Attempt? && earlier[i].now == Failures(earlier, policy)[k];
      assert events[i] == earlier[i];
    } else {
      assert events[n].now == Failures(events, policy)[k];
    }
  }

  /** The checks are in order, and after every full round of wrong passwords the next check
      waits for the lock. */
  ghost predicate Paced(failures: seq<int>, policy: Policy) {
    && (forall i, j :: 0 <= i <= j < |failures| ==> failures[i] <= failures[j])
    && (forall j :: 0 <= j && j + 1 < |failures| && (j + 1) % Limit(policy) == 0 ==>
          failures[j] + policy.lockTime <= failures[j + 1])
  }

  lemma {:induction false} FailuresArePaced(events: seq<Event>, policy: Policy)
    requires Monotone(events)
    ensures Paced(Failures(events, policy), policy)
    decreases |events|
  {
    if events != [] {
      var n := |events| - 1;
      var earlier := events[..n];
      assert forall i :: 0 <= i < n ==> earlier[i] == events[i];
      FailuresArePaced(earlier, policy);
      RowFromFailures(earlier, policy);
      var past, now := Failures(earlier, policy), Failures(events, policy);
      if now != past && now != [] {
        forall i | 0 <= i < |past| ensures past[i] <= now[|past|]
        {
          FailuresAreEvents(earlier, policy, i);
        }
        assert forall i :: 0 <= i < |past| ==> now[i] == past[i];
      }
    }
  }

  /** Any `Limit + 1` consecutive checks of wrong passwords span at least one lock. */
  lemma WindowTakesALock(events: seq<Event>, policy: Policy, i: nat)
    requires Monotone(events)
    requires i + Limit(policy) < |Failures(events, policy)|
    ensures Failures(events, policy)[i] + policy.lockTime <= Failures(events, policy)[i + Limit(policy)]
  {
    FailuresArePaced(events, policy);
    var failures := Failures(events, policy);
    var next := NextMultiple(i, Limit(policy));
    var j := next - 1;
    assert (j + 1) % Limit(policy) == 0;
    assert failures[i] <= failures[j];
    assert failures[j] + policy.lockTime <= failures[j + 1] <= failures[i + Limit(policy)];
  }

  /** The n-th check of a wrong password comes no earlier than `(n - 1) / Limit` locks after the first. */
  lemma {:induction false} GuessesAreRateLimited(events: seq<Event>, policy: Policy, n: nat)
    requires Monotone(events)
    requires 1 <= n <= |Failures(events, policy)|
    ensures Failures(events, policy)[0] + (n - 1) / Limit(policy) * policy.lockTime <= Failures(events, policy)[n - 1]
    decreases n
  {
    var m := Limit(policy);
    FailuresArePaced(events, policy);
    if n - 1 < m {
      QuotientIs(n - 1, m, 0, n - 1);
    } else {
      GuessesAreRateLimited(events, policy, n - m);
      WindowTakesALock(events, policy, n - 1 - m);
      QuotientMinus(n - 1, m);
      OneMore((n - 1 - m) / m, policy.lockTime);
    }
  }

  // ---------- in terms of the attempts alone ----------

  /** The last full round of wrong passwords is less than a lock ago. */
  predicate IsLockedOut(failures: seq<int>, policy: Policy, now: int) {
    failures != [] && |failures| % Limit(policy) == 0 && now < failures[|failures| - 1] + policy.lockTime
  }

  /** The wrong passwords that count: those tried on an account that was neither disabled nor locked out, since
      the last right password of the active user, or the last new one. */
  function Checked(events: seq<Event>, policy: Policy): seq<int> {
    if events == [] then []
    else
      var earlier := Checked(events[..|events| - 1], policy);
      match events[|events| - 1]
      case PasswordSet => []
      case Attempt(status, correct, now) =>
        if status == Disabled || IsLockedOut(earlier, policy, now) then earlier
        else if !correct then earlier + [now]
        else if status == Active then []
        else earlier
  }

  lemma {:induction false} FailuresAreChecked(events: seq<Event>, policy: Policy)
    ensures Failures(events, policy) == Checked(events, policy)
  {
    if events != [] {
      FailuresAreChecked(events[..|events| - 1], policy);
      RowFromFailures(events[..|events| - 1], policy);
    }
  }

  /** What a login answers, after any history: the lock comes first, then the disabled account, the password
      and the pending activation. */
  lemma LoginDecidedBy(events: seq<Event>, policy: Policy, status: Status, correct: bool, now: int)
    ensures var outcome := LoginOutcome(Run(events, policy), status, correct, now);
      var lockedOut := IsLockedOut(Checked(events, policy), policy, now);
      && (outcome == Locked <==> lockedOut)
      && (outcome == UserDisabled <==> status == Disabled && !lockedOut)
      && (outcome == InvalidCredentials <==> status != Disabled && !correct && !lockedOut)
      && (outcome == EmailNotVerified <==> status == PendingActivation && correct && !lockedOut)
      && (outcome == Success <==> status == Active && correct && !lockedOut)
  {
    RowFromFailures(events, policy);
    FailuresAreChecked(events, policy);
  }

  /** Logins of a disabled account, and any others that answer neither success nor a wrong password, leave the
      committed row alone. */
  lemma OnlyChecksAreCommitted(events: seq<Event>, policy: Policy, status: Status, correct: bool, now: int)
    requires || status == Disabled || (status == PendingActivation && correct)
             || IsLockedOut(Checked(events, policy), policy, now)
    ensures Run(events + [Attempt(status, correct, now)], policy) == Run(events, policy)
  {
    assert (events + [Attempt(status, correct, now)])[..|events|] == events;
    LoginDecidedBy(events, policy, status, correct, now);
  }

  /** The user object of the session, when the login is not committed: an expired lock is off and the counter
      0, but a lock that still holds is left alone. */
  lemma SessionRow(events: seq<Event>, policy: Policy, status: Status, correct: bool, now: int)
    ensures var row := Run(events, policy);
      var seen := InSession(row, status, correct, now, policy);
      var lockedOut := IsLockedOut(Checked(events, policy), policy, now);
      && (lockedOut ==> seen == row)
      && (!lockedOut && (status == Disabled || (status == PendingActivation && correct)) ==>
            seen == Row(if row.lockedUntil.Some? then 0 else row.failedCount, None, row.lastLoginAt))
      && (!lockedOut && status != Disabled && (!correct || status == Active) ==>
            seen == Run(events + [Attempt(status, correct, now)], policy))
  {
    LoginDecidedBy(events, policy, status, correct, now);
    assert (events + [Attempt(status, correct, now)])[..|events|] == events;
  }

  /** When the user last logged in. */
  function LastSuccess(events: seq<Event>, policy: Policy): Option<int> {
    if events == [] then None
    else
      var earlier, last := events[..|events| - 1], events[|events| - 1];
      if last.Attempt? && last.status == Active && last.correct
         && !IsLockedOut(Checked(earlier, policy), policy, last.now)
      then Some(last.now)
      else LastSuccess(earlier, policy)
  }

  /** The committed row, after any history, in terms of the attempts alone. */
  lemma {:induction false} RowFromAttempts(events: seq<Event>, policy: Policy)
    ensures Matches(Run(events, policy), Checked(events, policy), policy)
    ensures Run(events, policy).lastLoginAt == LastSuccess(events, policy)
  {
    FailuresAreChecked(events, policy);
    RowFromFailures(events, policy);
    if events != [] {
      var earlier, last := events[..|events| - 1], events[|events| - 1];
      RowFromAttempts(earlier, policy);
      if last.Attempt? {
        LoginDecidedBy(earlier, policy, last.status, last.correct, last.now);
      }
    }
  }

  /** The right password of an active user is refused exactly while the last full round of
      wrong ones is less than a lock ago. */
  lemma RightPasswordSucceedsIff(events: seq<Event>, policy: Policy, now: int)
    ensures var failures := Failures(events, policy);
      LoginOutcome(Run(events, policy), Active, true, now) == Success <==>
      !IsLockedOut(failures, policy, now)
  {
    RowFromFailures(events, policy);
  }
}
