/** Recovery: after a restart the worker retries what a crash interrupted, and without new requests it empties
    the store. A task whose PENDING save was the last thing before the crash is the one exception: it stays
    for ever. */
module TaskLiveness {
  import opened TaskProtocol
  import opened TaskBounds

  /** A task that is stored as pending, and that nobody works on. */
  ghost predicate Orphan(s: State, id: Id) {
    && id in s.store && s.store[id].status == Pending && !s.InFlight(id)
    && (forall n | n in s.doomed && n < |s.attempts| :: s.attempts[n].id != id)
  }

  /** Every task that counts as under way is under way. */
  ghost predicate NoOrphans(s: State) {
    forall id | id in s.store && (s.store[id].status == Pending || s.store[id].status == Running) :: s.InFlight(id)
  }

  // ---------------------------------------------------------------- the steps of a schedule are bounded

  /** How many of the actions do something to a task. */
  function Effective(s: State, schedule: seq<Action>, max: nat): nat
    decreases |schedule|
  {
    if schedule == [] then 0
    else
      var s' := Step(s, schedule[0], max);
      (if s'.store != s.store || s'.attempts != s.attempts then 1 else 0) + Effective(s', schedule[1..], max)
  }

  ghost predicate AllInternal(schedule: seq<Action>) {
    forall a | a in schedule :: Internal(a)
  }

  lemma InternalCosts(s: State, a: Action, max: nat)
    requires Inv(s, max) && Internal(a)
    ensures var s' := Step(s, a, max);
            && Inv(s', max) && Cost(s', max) <= Cost(s, max)
            && (s'.store != s.store || s'.attempts != s.attempts ==> Cost(s', max) < Cost(s, max))
  {
    if a.Work? {
      WorkCosts(s, a.id, max);
    } else if Step(s, a, max) != s {
      MoveCosts(s, a, max);
    }
  }

  /** Without new requests, shutdowns and restarts, every schedule does something to a task only so many times. */
  lemma {:induction false} ScheduleIsBounded(s: State, schedule: seq<Action>, max: nat)
    requires Inv(s, max) && AllInternal(schedule)
    ensures Inv(Run(s, schedule, max), max)
    ensures Effective(s, schedule, max) + Cost(Run(s, schedule, max), max) <= Cost(s, max)
    decreases |schedule|
  {
    if schedule != [] {
      InternalCosts(s, schedule[0], max);
      ScheduleIsBounded(Step(s, schedule[0], max), schedule[1..], max);
    }
  }

  /** A live attempt is witnessed by its number. */
  lemma Witness(s: State, n: nat)
    requires s.LiveAt(n)
    ensures s.InFlight(s.attempts[n].id)
  {
  }

  lemma MoveKeepsNoOrphans(s: State, a: Action, max: nat)
    requires NoOrphans(s) && Internal(a) && !a.Work? && Step(s, a, max) != s
    ensures NoOrphans(Step(s, a, max))
  {
    var s' := Step(s, a, max);
    forall id | id in s'.store && (s'.store[id].status == Pending || s'.store[id].status == Running)
      ensures s'.InFlight(id)
    {
      if id == s.attempts[a.n].id && !a.Settle? {
        Witness(s', a.n);
      } else {
        var n :| 0 <= n < |s.attempts| && s.attempts[n].id == id && s.attempts[n].Live();
        Witness(s', n);
      }
    }
  }

  lemma BeginKeepsNoOrphans(s: State, x: Id, count: int)
    requires NoOrphans(s)
    ensures NoOrphans(Begin(s, x, count))
  {
    var s' := Begin(s, x, count);
    forall id | id in s'.store && (s'.store[id].status == Pending || s'.store[id].status == Running)
      ensures s'.InFlight(id)
    {
      if id == x {
        Witness(s', |s.attempts|);
      } else {
        var n :| 0 <= n < |s.attempts| && s.attempts[n].id == id && s.attempts[n].Live();
        Witness(s', n);
      }
    }
  }

  lemma DropKeepsNoOrphans(s: State, s': State)
    requires NoOrphans(s) && s'.attempts == s.attempts
    requires Within(s'.store, s.store)
    ensures NoOrphans(s')
  {
  }

  lemma WorkKeepsNoOrphans(s: State, x: Id, max: nat)
    requires NoOrphans(s)
    ensures NoOrphans(WorkerStep(s, x, max))
  {
    var s' := WorkerStep(s, x, max);
    WorkerShape(s, x, max);
    if s.worker.Retrying? && x in s.worker.todo && !s.down {
      var count := if x in s.store then s.store[x].count else -1;
      BeginKeepsNoOrphans(s, x, count);
      DropKeepsNoOrphans(Begin(s, x, count), s');
    } else {
      DropKeepsNoOrphans(s, s');
    }
  }

  // ---------------------------------------------------------------- and there is always a next one

  /** The next action of a live attempt. */
  function NextMove(s: State, n: nat, ok: bool): Action
    requires s.LiveAt(n)
  {
    match s.attempts[n].phase
    case Saved => Submit(n)
    case Submitted => Mark(n)
    case Marked => Register(n)
    case Registered => Pop(n)
    case _ => Settle(n, ok)
  }

  lemma NextMoveCosts(s: State, n: nat, ok: bool, max: nat)
    requires Inv(s, max) && s.LiveAt(n)
    ensures Inv(Step(s, NextMove(s, n, ok), max), max)
    ensures Cost(Step(s, NextMove(s, n, ok), max), max) < Cost(s, max)
  {
    assert AttemptOk(s, s.attempts[n], max);
    MoveCosts(s, NextMove(s, n, ok), max);
  }

  function Stage(w: Worker): nat {
    match w case Idle => 0 case Retrying(_) => 1 case DroppingSpent(_) => 2 case DroppingDone(_) => 3
  }

  /** In which of the worker's lists a task belongs that is not under way. */
  function Target(s: State, id: Id, max: nat): nat {
    if s.Retriable(id, max) then 1 else if s.Spent(id, max) then 2 else 3
  }

  /** How many steps the worker needs at most until it lists the task. */
  function Distance(s: State, id: Id, max: nat): int {
    var d := Target(s, id, max) - Stage(s.worker);
    if d > 0 then d else d + 4
  }

  /** A worker that has nothing listed moves on; sooner or later it lists this task. */
  lemma Listing(s: State, id: Id, max: nat)
    requires !s.down && id in s.store && s.store[id].status != Pending && s.store[id].status != Running
    requires s.worker.Idle? || s.worker.todo == {}
    ensures var s' := WorkerStep(s, id, max);
            && s' == s.(worker := s'.worker)
            && (Distance(s, id, max) == 1 ==> !s'.worker.Idle? && id in s'.worker.todo)
            && (Distance(s, id, max) > 1 ==> Distance(s', id, max) == Distance(s, id, max) - 1)
  {
  }

  lemma {:induction false} InternalRun(s: State, schedule: seq<Action>, max: nat)
    requires NoOrphans(s) && AllInternal(schedule)
    ensures NoOrphans(Run(s, schedule, max)) && Run(s, schedule, max).down == s.down
    decreases |schedule|
  {
    if schedule != [] {
      var a := schedule[0];
      if a.Work? {
        WorkKeepsNoOrphans(s, a.id, max);
        WorkerShape(s, a.id, max);
      } else if Step(s, a, max) != s {
        MoveKeepsNoOrphans(s, a, max);
      }
      InternalRun(Step(s, a, max), schedule[1..], max);
    }
  }

  // ---------------------------------------------------------------- fair rounds

  /** The attempt makes its next move; an attempt that ends may succeed or fail. */
  ghost predicate MovesOn(s: State, a: Action, n: nat) {
    s.LiveAt(n) && (a == NextMove(s, n, true) || a == NextMove(s, n, false))
  }

  /** Somewhere in the schedule the attempt makes its next move. */
  ghost predicate GetsAMove(s: State, schedule: seq<Action>, n: nat, max: nat)
    decreases |schedule|
  {
    schedule != [] && (MovesOn(s, schedule[0], n) || GetsAMove(Step(s, schedule[0], max), schedule[1..], n, max))
  }

  /** A step of the worker's loop: on a task that it has listed, or to its next list when there is none left. */
  predicate WorksOn(s: State, a: Action) {
    a.Work? && (s.worker.Idle? || s.worker.todo == {} || a.id in s.worker.todo)
  }

  function WorkerSteps(s: State, schedule: seq<Action>, max: nat): nat
    decreases |schedule|
  {
    if schedule == [] then 0
    else (if WorksOn(s, schedule[0]) then 1 else 0) + WorkerSteps(Step(s, schedule[0], max), schedule[1..], max)
  }

  const WORKER_SHARE := 5

  /** In a round nothing is submitted and nothing shuts down, every attempt that is live makes a move, with whatever
      outcome, and the worker takes a few steps. In which order, and what else they do, is left open. */
  ghost predicate FairRound(s: State, schedule: seq<Action>, max: nat) {
    && AllInternal(schedule)
    && (forall n: nat | s.LiveAt(n) :: GetsAMove(s, schedule, n, max))
    && WorkerSteps(s, schedule, max) >= WORKER_SHARE
  }

  ghost predicate FairRounds(s: State, rounds: seq<seq<Action>>, max: nat)
    decreases |rounds|
  {
    rounds != [] ==> FairRound(s, rounds[0], max) && FairRounds(Run(s, rounds[0], max), rounds[1..], max)
  }

  function RunAll(s: State, rounds: seq<seq<Action>>, max: nat): State
    decreases |rounds|
  {
    if rounds == [] then s else RunAll(Run(s, rounds[0], max), rounds[1..], max)
  }

  /** A schedule in which a live attempt makes a move gets somewhere. */
  lemma {:induction false} MoveInSchedule(s: State, schedule: seq<Action>, n: nat, max: nat)
    requires Inv(s, max) && AllInternal(schedule) && GetsAMove(s, schedule, n, max)
    ensures Inv(Run(s, schedule, max), max) && Cost(Run(s, schedule, max), max) < Cost(s, max)
    decreases |schedule|
  {
    var a := schedule[0];
    if MovesOn(s, a, n) {
      NextMoveCosts(s, n, a == NextMove(s, n, true), max);
      ScheduleIsBounded(Step(s, a, max), schedule[1..], max);
    } else {
      InternalCosts(s, a, max);
      MoveInSchedule(Step(s, a, max), schedule[1..], n, max);
    }
  }

  /** How many of its steps the worker needs at most to do something to some task, if this one is stored. */
  function Need(s: State, id: Id, max: nat): int {
    if !s.worker.Idle? && s.worker.todo != {} then 1 else Distance(s, id, max) + 1
  }

  /** With no attempt under way, a step of the worker does something to a task, or brings it closer to that. */
  lemma WorkerGetsOn(s: State, a: Action, id: Id, max: nat)
    requires Inv(s, max) && !s.down && WorksOn(s, a)
    requires id in s.store && s.store[id].status != Pending && s.store[id].status != Running
    ensures var s' := Step(s, a, max);
            s'.store == s.store ==> s' == s.(worker := s'.worker) && Need(s', id, max) < Need(s, id, max)
  {
    if s.worker.Idle? || s.worker.todo == {} {
      Listing(s, id, max);
      assert WorkerStep(s, a.id, max) == WorkerStep(s, id, max);
    } else if s.worker.Retrying? {
      assert s.Retriable(a.id, max);
      assert WorkerStep(s, a.id, max).store[a.id].status == Pending;
    }
  }

  ghost predicate AllEnded(attempts: seq<Attempt>) {
    forall n | 0 <= n < |attempts| :: !attempts[n].Live()
  }

  /** With no attempt under way, a task is stored as failed or completed, and only the worker does something. */
  lemma Ended(s: State, a: Action, id: Id, max: nat)
    requires NoOrphans(s) && AllEnded(s.attempts) && id in s.store && Internal(a)
    ensures s.store[id].status != Pending && s.store[id].status != Running
    ensures !WorksOn(s, a) ==> Step(s, a, max) == s
  {
    assert !s.InFlight(id);
  }

  lemma {:induction false} WorkInSchedule(s: State, schedule: seq<Action>, id: Id, max: nat)
    requires Inv(s, max) && !s.down && NoOrphans(s) && id in s.store && AllEnded(s.attempts)
    requires AllInternal(schedule) && WorkerSteps(s, schedule, max) >= Need(s, id, max)
    ensures Inv(Run(s, schedule, max), max) && Cost(Run(s, schedule, max), max) < Cost(s, max)
    decreases |schedule|
  {
    var a := schedule[0];
    var s' := Step(s, a, max);
    InternalCosts(s, a, max);
    if s'.store != s.store || s'.attempts != s.attempts {
      ScheduleIsBounded(s', schedule[1..], max);
    } else {
      Ended(s, a, id, max);
      DropKeepsNoOrphans(s, s');
      if WorksOn(s, a) {
        WorkerGetsOn(s, a, id, max);
      }
      WorkInSchedule(s', schedule[1..], id, max);
    }
  }

  /** As long as a task is stored, every fair round brings the tasks forward, however the attempts end. */
  lemma RoundCosts(s: State, schedule: seq<Action>, max: nat)
    requires Inv(s, max) && !s.down && NoOrphans(s) && s.store != map[] && FairRound(s, schedule, max)
    ensures Inv(Run(s, schedule, max), max) && Cost(Run(s, schedule, max), max) < Cost(s, max)
  {
    if !AllEnded(s.attempts) {
      var n :| 0 <= n < |s.attempts| && s.attempts[n].Live();
      assert s.LiveAt(n);
      MoveInSchedule(s, schedule, n, max);
    } else {
      var id :| id in s.store;
      WorkInSchedule(s, schedule, id, max);
    }
  }

  lemma {:induction false} StaysEmpty(s: State, schedule: seq<Action>, max: nat)
    requires Inv(s, max) && !s.down && s.store == map[] && AllInternal(schedule)
    ensures Run(s, schedule, max).store == map[]
    decreases |schedule|
  {
    if schedule != [] {
      var a := schedule[0];
      assert a in schedule;
      StepKeepsInv(s, a, max);
      if a.Work? {
        WorkerShape(s, a.id, max);
        assert s.worker.Retrying? ==> forall id | id in s.worker.todo :: id in s.store;
      } else {
        assert forall n | 0 <= n < |s.attempts| :: AttemptOk(s, s.attempts[n], max);
      }
      StaysEmpty(Step(s, a, max), schedule[1..], max);
    }
  }

  /** Without new requests, shutdowns and restarts the worker empties the store: after as many fair rounds as the
      measure says, whatever the order of the steps and whether attempts succeed or fail. */
  lemma {:induction false} FairRoundsEmptyTheStore(s: State, rounds: seq<seq<Action>>, max: nat)
    requires Inv(s, max) && !s.down && NoOrphans(s) && FairRounds(s, rounds, max) && |rounds| >= Cost(s, max)
    ensures RunAll(s, rounds, max).store == map[]
    decreases |rounds|
  {
    if rounds == [] {
      if id :| id in s.store {
        StoreCostWithout(s.store, id, max);
      }
    } else {
      var s' := Run(s, rounds[0], max);
      InternalRun(s, rounds[0], max);
      ScheduleIsBounded(s, rounds[0], max);
      if s.store == map[] {
        StaysEmpty(s, rounds[0], max);
        EmptyRounds(s', rounds[1..], max);
      } else {
        RoundCosts(s, rounds[0], max);
        FairRoundsEmptyTheStore(s', rounds[1..], max);
      }
    }
  }

  lemma {:induction false} EmptyRounds(s: State, rounds: seq<seq<Action>>, max: nat)
    requires Inv(s, max) && !s.down && NoOrphans(s) && s.store == map[] && FairRounds(s, rounds, max)
    ensures RunAll(s, rounds, max).store == map[]
    decreases |rounds|
  {
    if rounds != [] {
      StaysEmpty(s, rounds[0], max);
      InternalRun(s, rounds[0], max);
      ScheduleIsBounded(s, rounds[0], max);
      EmptyRounds(Run(s, rounds[0], max), rounds[1..], max);
    }
  }

  // ---------------------------------------------------------------- fair rounds can always be made

  lemma {:induction false} MoveAll(s: State, k: nat, max: nat) returns (schedule: seq<Action>)
    requires Inv(s, max)
    ensures AllInternal(schedule) && Inv(Run(s, schedule, max), max)
    ensures forall n: nat | n >= k && s.LiveAt(n) :: GetsAMove(s, schedule, n, max)
    decreases |s.attempts| - k
  {
    schedule := [];
    if k < |s.attempts| {
      if s.LiveAt(k) {
        var a := NextMove(s, k, true);
        NextMoveCosts(s, k, true, max);
        var s' := Step(s, a, max);
        assert |s'.attempts| == |s.attempts|;
        var rest := MoveAll(s', k + 1, max);
        schedule := [a] + rest;
        assert schedule[1..] == rest;
        forall n: nat | n > k && s.LiveAt(n) ensures GetsAMove(s, schedule, n, max) {
          assert s'.LiveAt(n);
        }
      } else {
        schedule := MoveAll(s, k + 1, max);
      }
    }
  }

  lemma {:induction false} WorkSome(s: State, k: nat, max: nat) returns (schedule: seq<Action>)
    requires Inv(s, max)
    ensures AllInternal(schedule) && WorkerSteps(s, schedule, max) >= k
    decreases k
  {
    schedule := [];
    if k > 0 {
      var id: Id := "";
      if !s.worker.Idle? && s.worker.todo != {} {
        id :| id in s.worker.todo;
      }
      StepKeepsInv(s, Work(id), max);
      var rest := WorkSome(Step(s, Work(id), max), k - 1, max);
      schedule := [Work(id)] + rest;
      assert schedule[1..] == rest;
    }
  }

  lemma {:induction false} MoveStays(s: State, a: seq<Action>, b: seq<Action>, n: nat, max: nat)
    requires GetsAMove(s, a, n, max)
    ensures GetsAMove(s, a + b, n, max)
    decreases |a|
  {
    assert (a + b)[0] == a[0] && (a + b)[1..] == a[1..] + b;
    if !MovesOn(s, a[0], n) {
      MoveStays(Step(s, a[0], max), a[1..], b, n, max);
    }
  }

  lemma {:induction false} WorkStays(s: State, a: seq<Action>, b: seq<Action>, max: nat)
    ensures WorkerSteps(s, a + b, max) >= WorkerSteps(Run(s, a, max), b, max)
    decreases |a|
  {
    if a == [] {
      assert a + b == b;
    } else {
      assert (a + b)[0] == a[0] && (a + b)[1..] == a[1..] + b;
      WorkStays(Step(s, a[0], max), a[1..], b, max);
    }
  }

  lemma SomeFairRound(s: State, max: nat) returns (schedule: seq<Action>)
    requires Inv(s, max)
    ensures FairRound(s, schedule, max) && Inv(Run(s, schedule, max), max)
  {
    var moves := MoveAll(s, 0, max);
    var work := WorkSome(Run(s, moves, max), WORKER_SHARE, max);
    schedule := moves + work;
    forall n: nat | s.LiveAt(n) ensures GetsAMove(s, schedule, n, max) {
      MoveStays(s, moves, work, n, max);
    }
    WorkStays(s, moves, work, max);
    RunKeepsInv(s, schedule, max);
  }

  lemma {:induction false} SomeFairRounds(s: State, k: nat, max: nat) returns (rounds: seq<seq<Action>>)
    requires Inv(s, max)
    ensures |rounds| == k && FairRounds(s, rounds, max)
    decreases k
  {
    rounds := [];
    if k > 0 {
      var first := SomeFairRound(s, max);
      var rest := SomeFairRounds(Run(s, first, max), k - 1, max);
      rounds := [first] + rest;
      assert rounds[1..] == rest;
    }
  }

  /** When nothing more can happen to any task, the store is empty. */
  lemma QuietMeansEmpty(s: State, max: nat)
    requires Inv(s, max) && !s.down && NoOrphans(s)
    requires forall schedule | AllInternal(schedule) :: Effective(s, schedule, max) == 0
    ensures s.store == map[]
  {
    if s.store != map[] {
      var schedule := SomeFairRound(s, max);
      RoundCosts(s, schedule, max);
      Ineffective(s, schedule, max);
    }
  }

  lemma {:induction false} Ineffective(s: State, schedule: seq<Action>, max: nat)
    requires Effective(s, schedule, max) == 0
    ensures Run(s, schedule, max).store == s.store && Run(s, schedule, max).attempts == s.attempts
    decreases |schedule|
  {
    if schedule != [] {
      Ineffective(Step(s, schedule[0], max), schedule[1..], max);
    }
  }

  // ---------------------------------------------------------------- recovery

  /** After a restart every task that was running is stored as failed, with one retry less on its count if it had been
      retried, and is retriable; all others are as before. If none was stored as pending, nothing is orphaned. */
  lemma RestartRecovers(s: State, max: nat)
    requires Inv(s, max)
    ensures var s' := Step(s, Restart, max);
            && Inv(s', max) && !s'.down && s'.store.Keys == s.store.Keys
            && (forall id | id in s.store && s.store[id].status == Running && s.store[id].count > 0 ::
                  s'.store[id] == Info(Failed, s.store[id].count - 1))
            && (forall id | id in s.store && s.store[id].status == Running && s.store[id].count <= 0 ::
                  s'.store[id] == Info(Failed, s.store[id].count))
            && (forall id | id in s.store && s.store[id].status != Running :: s'.store[id] == s.store[id])
            && (forall id | id in s.store && s.store[id].status == Running :: s'.Retriable(id, max))
            && ((forall id | id in s.store :: s.store[id].status != Pending) ==> NoOrphans(s'))
            && (forall id | id in s.store && s.store[id].status == Pending :: Orphan(s', id))
  {
    RestartKeepsInv(s, max);
  }

  lemma OrphanSurvivesMove(s: State, a: Action, id: Id, max: nat)
    requires Inv(s, max) && Orphan(s, id) && !a.Work? && !a.Request? && !a.Restart?
    ensures Orphan(Step(s, a, max), id)
  {
  }

  lemma OrphanSurvivesBegin(s: State, x: Id, count: int, id: Id)
    requires Orphan(s, id) && x != id && !s.down && s.doomed == {}
    ensures Orphan(Begin(s, x, count), id)
  {
  }

  lemma OrphanSurvives(s: State, a: Action, id: Id, max: nat)
    requires Inv(s, max) && Orphan(s, id)
    ensures Orphan(Step(s, a, max), id)
  {
    match a
    case Work(x) =>
      WorkerShape(s, x, max);
      if s.worker.Retrying? && x in s.worker.todo && !s.down {
        assert s.Retriable(x, max);
        OrphanSurvivesBegin(s, x, s.store[x].count, id);
      }
    case Request(x) =>
      if !s.down && x !in s.store {
        OrphanSurvivesBegin(s, x, -1, id);
      }
    case Restart =>
    case _ => OrphanSurvivesMove(s, a, id, max);
  }

  /** A task that was stored as pending when the process ended never leaves the store again, whatever happens. */
  lemma {:induction false} OrphanForEver(s: State, schedule: seq<Action>, id: Id, max: nat)
    requires Inv(s, max) && Orphan(s, id)
    ensures Orphan(Run(s, schedule, max), id)
    decreases |schedule|
  {
    if schedule != [] {
      OrphanSurvives(s, schedule[0], id, max);
      StepKeepsInv(s, schedule[0], max);
      OrphanForEver(Step(s, schedule[0], max), schedule[1..], id, max);
    }
  }

  lemma {:induction false} OrphanInRounds(s: State, rounds: seq<seq<Action>>, id: Id, max: nat)
    requires Inv(s, max) && Orphan(s, id)
    ensures Orphan(RunAll(s, rounds, max), id)
    decreases |rounds|
  {
    if rounds != [] {
      OrphanForEver(s, rounds[0], id, max);
      RunKeepsInv(s, rounds[0], max);
      OrphanInRounds(Run(s, rounds[0], max), rounds[1..], id, max);
    }
  }

  /** After a crash, the fair rounds empty the store, all of them, exactly when no task was stored as pending. */
  lemma RecoveryEmptiesStore(s: State, max: nat)
    requires Inv(s, max)
    ensures var s' := Step(s, Restart, max);
            && Inv(s', max)
            && ((forall rounds | FairRounds(s', rounds, max) && |rounds| >= Cost(s', max) ::
                RunAll(s', rounds, max).store == map[])
                <==> (forall id | id in s.store :: s.store[id].status != Pending))
  {
    RestartRecovers(s, max);
    var s' := Step(s, Restart, max);
    if forall id | id in s.store :: s.store[id].status != Pending {
      forall rounds | FairRounds(s', rounds, max) && |rounds| >= Cost(s', max)
        ensures RunAll(s', rounds, max).store == map[]
      {
        FairRoundsEmptyTheStore(s', rounds, max);
      }
    } else {
      var id :| id in s.store && s.store[id].status == Pending;
      var rounds := SomeFairRounds(s', Cost(s', max), max);
      OrphanInRounds(s', rounds, id, max);
    }
  }
}
