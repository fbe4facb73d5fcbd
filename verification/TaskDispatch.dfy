/**
 How queued tasks become worker tasks: a user's free slots, the batch that fills them, and the global
 round over all users.
 */
module TaskDispatch {
  import opened Numbers
  import opened RewriteTask

  const MAX_DISPATCH_BATCH := 5

  datatype Task = Task(id: int, user: int, status: Status)

  /** `limit` is a user's number of slots; `stopped` are the tasks over their budget and `valid` those
      whose payload can be prepared. */
  datatype Settings = Settings(limit: int -> nat, stopped: int -> bool, valid: int -> bool)

  predicate HoldsSlot(t: Task, user: int) {
    t.user == user && t.status in {Dispatching, Running}
  }

  predicate Waits(t: Task, user: int) {
    t.user == user && t.status == Queued
  }

  function Slots(rows: seq<Task>, user: int): nat {
    if rows == [] then 0
    else Slots(rows[..|rows| - 1], user) + if HoldsSlot(rows[|rows| - 1], user) then 1 else 0
  }

  function Waiting(rows: seq<Task>, user: int): nat {
    if rows == [] then 0
    else Waiting(rows[..|rows| - 1], user) + if Waits(rows[|rows| - 1], user) then 1 else 0
  }

  function BatchSize(s: Settings, rows: seq<Task>, user: int): nat {
    Min(Max(0, s.limit(user) - Slots(rows, user)), MAX_DISPATCH_BATCH)
  }

  /** A batch is what the free slots hold, five at most. */
  lemma BatchSizeIs(s: Settings, rows: seq<Task>, user: int)
    ensures Slots(rows, user) >= s.limit(user) ==> BatchSize(s, rows, user) == 0
    ensures s.limit(user) - 5 <= Slots(rows, user) <= s.limit(user) ==>
              BatchSize(s, rows, user) == s.limit(user) - Slots(rows, user)
    ensures Slots(rows, user) <= s.limit(user) - 5 ==> BatchSize(s, rows, user) == 5
  {
  }

  /** Is row `i` one of the first `k` that wait, in the order of the query? */
  predicate IsNext(rows: seq<Task>, user: int, k: nat, i: nat)
    requires i < |rows|
  {
    Waits(rows[i], user) && Waiting(rows[..i], user) < k
  }

  /** A task of the batch is over its budget. */
  ghost predicate Blocked(s: Settings, rows: seq<Task>, user: int) {
    exists i: nat :: i < |rows| && IsNext(rows, user, BatchSize(s, rows, user), i) && s.stopped(rows[i].id)
  }

  function Assigned(s: Settings, t: Task): Task {
    t.(status := if s.valid(t.id) then Dispatching else Failed)
  }

  /** What a batch of `k` makes of the first `n` rows. */
  function Filled(s: Settings, rows: seq<Task>, user: int, k: nat, n: nat): (r: seq<Task>)
    requires n <= |rows|
    ensures |r| == n
  {
    if n == 0 then []
    else
      Filled(s, rows, user, k, n - 1)
      + [if IsNext(rows, user, k, n - 1) then Assigned(s, rows[n - 1]) else rows[n - 1]]
  }

  /** The rows after the user's turn. */
  ghost function AfterTurn(s: Settings, rows: seq<Task>, user: int): (r: seq<Task>)
    ensures |r| == |rows|
  {
    if Blocked(s, rows, user) then rows else Filled(s, rows, user, BatchSize(s, rows, user), |rows|)
  }

  /** The rows after the turns of the users, up to the first that raises. */
  ghost function AfterRound(s: Settings, rows: seq<Task>, users: seq<int>): (r: seq<Task>)
    ensures |r| == |rows|
    decreases |users|
  {
    if users == [] || Blocked(s, rows, users[0]) then rows
    else AfterRound(s, AfterTurn(s, rows, users[0]), users[1..])
  }

  /** The task table; each turn is one transaction. */
  class TaskTable {
    var rows: seq<Task>

    method CountSlots(user: int) returns (n: nat)
      ensures n == Slots(rows, user)
    {
      n := 0;
      for i := 0 to |rows|
        invariant n == Slots(rows[..i], user)
      {
        assert rows[..i + 1][..i] == rows[..i];
        if rows[i].user == user && (rows[i].status == Dispatching || rows[i].status == Running) {
          n := n + 1;
        }
      }
      assert rows[..|rows|] == rows;
    }

    /** `dispatch_user_queue_for_user` up to its commit. A task over its budget should fail, but the state
        machine has no way from queued to failed: the attempt raises, and the transaction is rolled back. */
    method Turn(s: Settings, user: int) returns (raised: bool)
      modifies this
      ensures rows == AfterTurn(s, old(rows), user)
      ensures raised <==> Blocked(s, old(rows), user)
    {
      var slots := CountSlots(user);
      var k := Min(Max(0, s.limit(user) - slots), MAX_DISPATCH_BATCH);
      var next, seen := [], 0;
      for i := 0 to |rows|
        invariant seen == Waiting(rows[..i], user)
        invariant next == Filled(s, rows, user, k, i)
        invariant forall j: nat :: j < i && IsNext(rows, user, k, j) ==> !s.stopped(rows[j].id)
        invariant rows == old(rows)
      {
        assert rows[..i + 1][..i] == rows[..i];
        var t := rows[i];
        if t.user == user && t.status == Queued {
          if seen < k {
            if s.stopped(t.id) {
              assert IsNext(rows, user, k, i);
              return true;
            }
            t := t.(status := if s.valid(t.id) then Dispatching else Failed);
          }
          seen := seen + 1;
        }
        next := next + [t];
      }
      rows := next;
      raised := false;
    }

    /** `dispatch_global`. */
    method Round(s: Settings, users: seq<int>) returns (raised: bool)
      modifies this
      ensures rows == AfterRound(s, old(rows), users)
    {
      raised := false;
      var i := 0;
      while i < |users| && !raised
        invariant i <= |users|
        invariant AfterRound(s, old(rows), users) == if raised then rows else AfterRound(s, rows, users[i..])
      {
        raised := Turn(s, users[i]);
        i := i + 1;
      }
    }
  }

  // ---------- one turn ----------

  lemma {:induction false} FilledAt(s: Settings, rows: seq<Task>, user: int, k: nat, n: nat, i: nat)
    requires i < n <= |rows|
    ensures Filled(s, rows, user, k, n)[i] == if IsNext(rows, user, k, i) then Assigned(s, rows[i]) else rows[i]
  {
    if i < n - 1 {
      FilledAt(s, rows, user, k, n - 1, i);
    }
  }

  /** A waiting task leaves the queue in its user's turn if and only if it is in the batch that fills the
      free slots and no task of that batch is over its budget; it is then dispatching, or has failed
      because its payload is not valid. Nothing else changes. */
  lemma TurnTakesIff(s: Settings, rows: seq<Task>, user: int, i: nat)
    requires i < |rows|
    ensures var after := AfterTurn(s, rows, user)[i];
      && (after != rows[i] <==> !Blocked(s, rows, user) && IsNext(rows, user, BatchSize(s, rows, user), i))
      && (after != rows[i] ==>
            && rows[i] == Task(rows[i].id, user, Queued)
            && after == Task(rows[i].id, user, if s.valid(rows[i].id) then Dispatching else Failed))
  {
    FilledAt(s, rows, user, BatchSize(s, rows, user), |rows|, i);
  }

  lemma SlotsSnoc(rows: seq<Task>, t: Task, user: int)
    ensures Slots(rows + [t], user) == Slots(rows, user) + if HoldsSlot(t, user) then 1 else 0
    ensures Waiting(rows + [t], user) == Waiting(rows, user) + if Waits(t, user) then 1 else 0
  {
    assert (rows + [t])[..|rows|] == rows;
  }

  lemma OneMoreRow(s: Settings, rows: seq<Task>, user: int, k: nat, n: nat)
    requires n < |rows|
    ensures Waiting(rows[..n + 1], user) == Waiting(rows[..n], user) + if Waits(rows[n], user) then 1 else 0
    ensures Slots(Filled(s, rows, user, k, n + 1), user) - Slots(Filled(s, rows, user, k, n), user)
         <= Slots(rows[..n + 1], user) - Slots(rows[..n], user) + if IsNext(rows, user, k, n) then 1 else 0
  {
    var last := if IsNext(rows, user, k, n) then Assigned(s, rows[n]) else rows[n];
    SlotsSnoc(Filled(s, rows, user, k, n), last, user);
    SlotsSnoc(rows[..n], rows[n], user);
    assert rows[..n] + [rows[n]] == rows[..n + 1];
  }

  lemma {:induction false} FilledSlots(s: Settings, rows: seq<Task>, user: int, k: nat, n: nat)
    requires n <= |rows|
    ensures Slots(Filled(s, rows, user, k, n), user) <= Slots(rows[..n], user) + Min(k, Waiting(rows[..n], user))
  {
    if n > 0 {
      FilledSlots(s, rows, user, k, n - 1);
      OneMoreRow(s, rows, user, k, n - 1);
    }
  }

  /** A turn never gives the user more slots than the limit. */
  lemma TurnKeepsLimit(s: Settings, rows: seq<Task>, user: int)
    ensures Slots(AfterTurn(s, rows, user), user) <= Max(Slots(rows, user), s.limit(user))
  {
    FilledSlots(s, rows, user, BatchSize(s, rows, user), |rows|);
    assert rows[..|rows|] == rows;
  }

  // ---------- other users ----------

  /** The same tasks, and those of the user in the same state. */
  predicate SameFor(a: seq<Task>, b: seq<Task>, user: int) {
    && |a| == |b|
    && forall i :: 0 <= i < |a| ==> a[i].user == b[i].user && (a[i].user == user ==> a[i] == b[i])
  }

  lemma {:induction false} SameCounts(a: seq<Task>, b: seq<Task>, user: int)
    requires SameFor(a, b, user)
    ensures Slots(a, user) == Slots(b, user) && Waiting(a, user) == Waiting(b, user)
  {
    if a != [] {
      SameCounts(a[..|a| - 1], b[..|b| - 1], user);
    }
  }

  lemma SameNext(a: seq<Task>, b: seq<Task>, user: int, k: nat, i: nat)
    requires SameFor(a, b, user) && i < |a|
    ensures IsNext(a, user, k, i) <==> IsNext(b, user, k, i)
  {
    SameCounts(a[..i], b[..i], user);
  }

  lemma SameBlocked(s: Settings, a: seq<Task>, b: seq<Task>, user: int)
    requires SameFor(a, b, user)
    ensures Blocked(s, a, user) ==> Blocked(s, b, user)
  {
    SameCounts(a, b, user);
    if Blocked(s, a, user) {
      var k := BatchSize(s, a, user);
      var i: nat :| i < |a| && IsNext(a, user, k, i) && s.stopped(a[i].id);
      SameNext(a, b, user, k, i);
      assert a[i] == b[i];
    }
  }

  /** A turn of another user changes nothing for this one. */
  lemma TurnOfAnother(s: Settings, rows: seq<Task>, user: int, other: int)
    requires other != user
    ensures SameFor(AfterTurn(s, rows, other), rows, user)
  {
    forall i | 0 <= i < |rows|
      ensures var after := AfterTurn(s, rows, other)[i];
        after.user == rows[i].user && (after.user == user ==> after == rows[i])
    {
      TurnTakesIff(s, rows, other, i);
    }
  }

  lemma SameTurn(s: Settings, a: seq<Task>, b: seq<Task>, user: int, i: nat)
    requires SameFor(a, b, user) && i < |a| && a[i].user == user
    ensures AfterTurn(s, a, user)[i] == AfterTurn(s, b, user)[i]
  {
    TurnTakesIff(s, a, user, i);
    TurnTakesIff(s, b, user, i);
    SameBlocked(s, a, b, user);
    SameBlocked(s, b, a, user);
    SameCounts(a, b, user);
    SameNext(a, b, user, BatchSize(s, a, user), i);
  }

  // ---------- a round ----------

  /** The user's turn comes, and neither it nor one before it raises. */
  ghost predicate IsServed(s: Settings, rows: seq<Task>, users: seq<int>, user: int) {
    users != [] && !Blocked(s, rows, users[0]) && (users[0] == user || IsServed(s, rows, users[1..], user))
  }

  lemma {:induction false} SameServed(s: Settings, a: seq<Task>, b: seq<Task>, users: seq<int>, user: int)
    requires forall u :: u in users ==> SameFor(a, b, u)
    ensures IsServed(s, a, users, user) <==> IsServed(s, b, users, user)
  {
    if users != [] {
      SameBlocked(s, a, b, users[0]);
      assert SameFor(b, a, users[0]);
      SameBlocked(s, b, a, users[0]);
      SameServed(s, a, b, users[1..], user);
    }
  }

  predicate AllDifferent(users: seq<int>) {
    forall i, j :: 0 <= i < j < |users| ==> users[i] != users[j]
  }

  /** What a round does to each task: its user's turn, as if it were the only one, if no user up to and
      including its own has a task over its budget in the batch; and nothing otherwise. */
  lemma {:induction false} RoundServesIff(s: Settings, rows: seq<Task>, users: seq<int>, i: nat)
    requires i < |rows| && AllDifferent(users)
    ensures var user := rows[i].user;
      AfterRound(s, rows, users)[i] == if IsServed(s, rows, users, user) then AfterTurn(s, rows, user)[i] else rows[i]
    decreases |users|
  {
    var user := rows[i].user;
    if users != [] && !Blocked(s, rows, users[0]) {
      var after := AfterTurn(s, rows, users[0]);
      forall u | u in users[1..] ensures SameFor(after, rows, u)
      {
        TurnOfAnother(s, rows, u, users[0]);
      }
      TurnTakesIff(s, rows, users[0], i);
      RoundServesIff(s, after, users[1..], i);
      SameServed(s, after, rows, users[1..], user);
      if users[0] == user {
        ServedIsListed(s, after, users[1..], user);
      } else {
        TurnOfAnother(s, rows, user, users[0]);
        SameTurn(s, after, rows, user, i);
      }
    }
  }

  lemma {:induction false} ServedIsListed(s: Settings, rows: seq<Task>, users: seq<int>, user: int)
    ensures IsServed(s, rows, users, user) ==> user in users
  {
    if users != [] {
      ServedIsListed(s, rows, users[1..], user);
    }
  }

  /** The user's turn does not come before that of `first`. */
  predicate ComesAfter(users: seq<int>, first: int, user: int) {
    users == [] || users[0] == first || (users[0] != user && ComesAfter(users[1..], first, user))
  }

  lemma {:induction false} BlockedServesNoneAfter(s: Settings, rows: seq<Task>, users: seq<int>, first: int, user: int)
    requires Blocked(s, rows, first) && ComesAfter(users, first, user)
    ensures !IsServed(s, rows, users, user)
  {
    if users != [] && users[0] != first {
      BlockedServesNoneAfter(s, rows, users[1..], first, user);
    }
  }

  lemma {:induction false} NotBeforeItself(users: seq<int>, user: int)
    ensures ComesAfter(users, user, user)
  {
    if users != [] {
      NotBeforeItself(users[1..], user);
    }
  }

  ghost function AfterRounds(s: Settings, rows: seq<Task>, rounds: seq<seq<int>>): (r: seq<Task>)
    ensures |r| == |rows|
  {
    if rounds == [] then rows
    else AfterRound(s, AfterRounds(s, rows, rounds[..|rounds| - 1]), rounds[|rounds| - 1])
  }

  lemma RoundChangesNothing(s: Settings, rows: seq<Task>, users: seq<int>, first: int, user: int)
    requires Blocked(s, rows, first) && AllDifferent(users) && ComesAfter(users, first, user)
    ensures SameFor(AfterRound(s, rows, users), rows, user)
  {
    BlockedServesNoneAfter(s, rows, users, first, user);
    forall i | 0 <= i < |rows|
      ensures var after := AfterRound(s, rows, users)[i];
        after.user == rows[i].user && (after.user == user ==> after == rows[i])
    {
      RoundServesIff(s, rows, users, i);
      TurnTakesIff(s, rows, rows[i].user, i);
    }
  }

  /** One task over its budget that is due starves its user and all users after it, however many rounds are
      made. */
  lemma {:induction false} BlockedStarves(s: Settings, rows: seq<Task>, rounds: seq<seq<int>>, first: int, user: int)
    requires Blocked(s, rows, first)
    requires forall users :: users in rounds ==> AllDifferent(users) && ComesAfter(users, first, user)
    ensures SameFor(AfterRounds(s, rows, rounds), rows, user) && SameFor(AfterRounds(s, rows, rounds), rows, first)
  {
    if rounds != [] {
      var init, users := rounds[..|rounds| - 1], rounds[|rounds| - 1];
      BlockedStarves(s, rows, init, first, user);
      var before := AfterRounds(s, rows, init);
      assert users in rounds;
      assert SameFor(rows, before, first);
      SameBlocked(s, rows, before, first);
      RoundChangesNothing(s, before, users, first, user);
      NotBeforeItself(users, first);
      RoundChangesNothing(s, before, users, first, first);
    }
  }

  /** Two users with a slot and a task each, the first task over its budget: neither is ever dispatched. */
  lemma OneTaskStarvesTwoUsers(rounds: nat)
    ensures var s := Settings((user: int) => 1, (id: int) => id == 1, (id: int) => true);
      var rows := [Task(1, 1, Queued), Task(2, 2, Queued)];
      AfterRounds(s, rows, seq(rounds, i => [1, 2])) == rows
  {
    var s := Settings((user: int) => 1, (id: int) => id == 1, (id: int) => true);
    var rows := [Task(1, 1, Queued), Task(2, 2, Queued)];
    assert Slots(rows, 1) == 0 by {
      assert rows[..1] == [rows[0]] && rows[..1][..0] == [];
    }
    assert IsNext(rows, 1, BatchSize(s, rows, 1), 0);
    BlockedStarves(s, rows, seq(rounds, i => [1, 2]), 1, 2);
  }

  // ---------- the limit over runs ----------

  /** Turns, new tasks anywhere in the order of the query, and any change of a task that takes no slot. */
  datatype Op = Turn(s: Settings, user: int) | Submit(at: nat, task: Task) | Change(i: nat, status: Status)

  ghost function Next(rows: seq<Task>, op: Op): seq<Task> {
    match op
    case Turn(s, user) => AfterTurn(s, rows, user)
    case Submit(at, t) => if at <= |rows| then rows[..at] + [t.(status := Queued)] + rows[at..] else rows
    case Change(i, status) =>
      if i < |rows| && (HoldsSlot(rows[i], rows[i].user) || status !in {Dispatching, Running}) then
        rows[i := rows[i].(status := status)]
      else rows
  }

  ghost function Run(ops: seq<Op>): seq<Task> {
    if ops == [] then [] else Next(Run(ops[..|ops| - 1]), ops[|ops| - 1])
  }

  lemma {:induction false} SlotsConcat(a: seq<Task>, b: seq<Task>, user: int)
    ensures Slots(a + b, user) == Slots(a, user) + Slots(b, user)
  {
    if b == [] {
      assert a + b == a;
    } else {
      assert (a + b)[..|a + b| - 1] == a + b[..|b| - 1];
      SlotsConcat(a, b[..|b| - 1], user);
    }
  }

  lemma SlotsAt(rows: seq<Task>, i: nat, t: Task, user: int)
    requires i < |rows| && (HoldsSlot(t, user) ==> HoldsSlot(rows[i], user))
    ensures Slots(rows[i := t], user) <= Slots(rows, user)
  {
    assert rows == rows[..i] + [rows[i]] + rows[i + 1..];
    assert rows[i := t] == rows[..i] + [t] + rows[i + 1..];
    SlotsConcat(rows[..i] + [rows[i]], rows[i + 1..], user);
    SlotsConcat(rows[..i], [rows[i]], user);
    SlotsConcat(rows[..i] + [t], rows[i + 1..], user);
    SlotsConcat(rows[..i], [t], user);
  }

  lemma SlotsWith(rows: seq<Task>, at: nat, t: Task, user: int)
    requires at <= |rows| && !HoldsSlot(t, user)
    ensures Slots(rows[..at] + [t] + rows[at..], user) == Slots(rows, user)
  {
    assert rows == rows[..at] + rows[at..];
    SlotsConcat(rows[..at], rows[at..], user);
    SlotsConcat(rows[..at] + [t], rows[at..], user);
    SlotsConcat(rows[..at], [t], user);
  }

  /** Over any run, with any budgets and payloads, no user ever holds more slots than the largest limit. */
  lemma {:induction false} RunKeepsLimit(ops: seq<Op>, user: int, limit: nat)
    requires forall op :: op in ops && op.Turn? && op.user == user ==> op.s.limit(user) <= limit
    ensures Slots(Run(ops), user) <= limit
  {
    if ops != [] {
      var init, op := ops[..|ops| - 1], ops[|ops| - 1];
      RunKeepsLimit(init, user, limit);
      var rows := Run(init);
      match op {
        case Turn(s, u) =>
          assert op in ops;
          if u == user {
            TurnKeepsLimit(s, rows, user);
          } else {
            TurnOfAnother(s, rows, user, u);
            SameCounts(AfterTurn(s, rows, u), rows, user);
          }
        case Submit(at, t) =>
          if at <= |rows| {
            SlotsWith(rows, at, t.(status := Queued), user);
          }
        case Change(i, status) =>
          if i < |rows| && (HoldsSlot(rows[i], rows[i].user) || status !in {Dispatching, Running}) {
            SlotsAt(rows, i, rows[i].(status := status), user);
          }
      }
    }
  }
}
