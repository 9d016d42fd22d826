/** How many failures a task has left: its stored count moves with its failed attempts and with nothing else, and a
    restart that finds it running gives one failure back. */
module TaskRetries {
  import opened TaskProtocol

  /** The action ends an attempt for the task, like this. */
  predicate Ends(s: State, a: Action, id: Id, ok: bool) {
    a.Settle? && a.ok == ok && a.n < |s.attempts| && s.attempts[a.n].phase == Popped && s.attempts[a.n].id == id
  }

  /** How many attempts for the task end like this in a schedule. */
  function Ended(s: State, schedule: seq<Action>, id: Id, ok: bool, max: nat): nat
    decreases |schedule|
  {
    if schedule == [] then 0
    else
      (if Ends(s, schedule[0], id, ok) then 1 else 0)
      + Ended(Step(s, schedule[0], max), schedule[1..], id, ok, max)
  }

  /** One process, in which nobody asks for the task again. */
  predicate OneProcess(schedule: seq<Action>, id: Id) {
    forall a | a in schedule :: !a.Restart? && a != Request(id)
  }

  // ---------------------------------------------------------------- one action

  lemma WorkCounts(s: State, x: Id, id: Id, max: nat)
    requires Inv(s, max) && id in s.store
    ensures var s' := WorkerStep(s, x, max);
            && (id in s'.store ==> s'.store[id].count == s.store[id].count)
            && (id !in s'.store ==> !s.InFlight(id) && s'.attempts == s.attempts)
            && (id !in s'.store && !s.down ==> s.Done(id) || s.Spent(id, max))
            && (id in s'.store && s'.store[id].status == Completed ==> s.store[id].status == Completed)
  {
    WorkerShape(s, x, max);
    if (s.worker.DroppingSpent? || s.worker.DroppingDone?) && x in s.worker.todo {
      DropKeepsInv(s, x, max);
    }
  }

  lemma MoveCounts(s: State, a: Action, id: Id, max: nat)
    requires Inv(s, max) && id in s.store && !a.Restart? && !a.Work?
    ensures var s' := Step(s, a, max);
            && id in s'.store
            && s'.store[id].count == s.store[id].count + (if Ends(s, a, id, false) then 1 else 0)
            && (s'.store[id].status == Completed ==> s.store[id].status == Completed || Ends(s, a, id, true))
  {
  }

  /** What an action makes of a stored task: the count grows with a failed attempt only, and only what is completed or
      out of retries is removed, unless the process is shutting down. */
  ghost predicate Counted(s: State, a: Action, s': State, id: Id, max: nat)
    requires id in s.store
  {
    && (s.down ==> s'.down)
    && (id in s'.store ==> s'.store[id].count == s.store[id].count + (if Ends(s, a, id, false) then 1 else 0))
    && (id in s'.store && s'.store[id].status == Completed ==>
          s.store[id].status == Completed || Ends(s, a, id, true))
    && (id !in s'.store ==> a.Work? && Gone(s', id, s.store[id].count))
    && (id !in s'.store && !s'.down ==> s.store[id].status == Completed || s.store[id].count >= max)
  }

  lemma StepCounts(s: State, a: Action, id: Id, max: nat)
    requires Inv(s, max) && id in s.store && !a.Restart?
    ensures Counted(s, a, Step(s, a, max), id, max)
  {
    if a.Work? {
      WorkCounts(s, a.id, id, max);
      WorkerShape(s, a.id, max);
    } else {
      MoveCounts(s, a, id, max);
    }
  }

  // ---------------------------------------------------------------- a task that the worker has removed

  /** Nobody works on the task any more; only shutdown can still write its entry, with this count. */
  ghost predicate Gone(s: State, id: Id, count: int) {
    && !s.InFlight(id) && (id in s.store ==> s.down && s.store[id].count == count)
    && (forall n | n in s.doomed && n < |s.attempts| && s.attempts[n].id == id :: s.attempts[n].count == count)
  }

  lemma GoneWorks(s: State, x: Id, id: Id, count: int, max: nat)
    requires Inv(s, max) && Gone(s, id, count)
    ensures Gone(WorkerStep(s, x, max), id, count)
  {
    WorkerShape(s, x, max);
  }

  lemma GoneStays(s: State, a: Action, id: Id, count: int, max: nat)
    requires Inv(s, max) && Gone(s, id, count) && !a.Restart? && a != Request(id)
    ensures Gone(Step(s, a, max), id, count) && forall ok :: !Ends(s, a, id, ok)
  {
    if a.Work? {
      GoneWorks(s, a.id, id, count, max);
    }
  }

  lemma {:induction false} GoneForGood(s: State, schedule: seq<Action>, id: Id, count: int, max: nat)
    requires Inv(s, max) && Gone(s, id, count) && OneProcess(schedule, id)
    ensures Gone(Run(s, schedule, max), id, count)
    ensures forall ok :: Ended(s, schedule, id, ok, max) == 0
    decreases |schedule|
  {
    if schedule != [] {
      StepKeepsInv(s, schedule[0], max);
      GoneStays(s, schedule[0], id, count, max);
      GoneForGood(Step(s, schedule[0], max), schedule[1..], id, count, max);
    }
  }

  // ---------------------------------------------------------------- whole schedules

  /** In every schedule of one process: the count grows by one with each failed attempt, and stays within the limit. A
      task that is removed while the process is not shutting down, and of which no attempt succeeded, failed as often
      as it could. */
  lemma {:induction false} FailuresAreCounted(s: State, schedule: seq<Action>, id: Id, max: nat)
    requires Inv(s, max) && id in s.store && OneProcess(schedule, id)
    ensures var e, k := Run(s, schedule, max), Ended(s, schedule, id, false, max);
            && s.store[id].count + k <= max && (s.down ==> e.down)
            && (id in e.store ==> e.store[id].count == s.store[id].count + k)
            && (id !in e.store && !e.down && s.store[id].status != Completed && Ended(s, schedule, id, true, max) == 0
                ==> s.store[id].count + k == max)
    decreases |schedule|
  {
    assert EntryOk(s, id, max);
    if schedule != [] {
      StepKeepsInv(s, schedule[0], max);
      StepCounts(s, schedule[0], id, max);
      var s' := Step(s, schedule[0], max);
      if id in s'.store {
        FailuresAreCounted(s', schedule[1..], id, max);
      } else {
        GoneForGood(s', schedule[1..], id, s.store[id].count, max);
        DownStays(s', schedule[1..], max);
      }
    }
  }

  lemma {:induction false} DownStays(s: State, schedule: seq<Action>, max: nat)
    requires forall a | a in schedule :: !a.Restart?
    ensures s.down ==> Run(s, schedule, max).down
    decreases |schedule|
  {
    if schedule != [] {
      if schedule[0].Work? {
        WorkerShape(s, schedule[0].id, max);
      }
      DownStays(Step(s, schedule[0], max), schedule[1..], max);
    }
  }

  /** A task that was running when the process ended, with a retry count c > 0, can fail max - c + 1 times more before
      it is out of retries; one that was not retried yet can fail as often as it still could. */
  lemma RetriesAfterRestart(s: State, schedule: seq<Action>, id: Id, max: nat)
    requires Inv(s, max) && id in s.store && s.store[id].status == Running && OneProcess(schedule, id)
    ensures var c, s' := s.store[id].count, Step(s, Restart, max);
            var left := if c > 0 then max - c + 1 else max - c;
            var e, k := Run(s', schedule, max), Ended(s', schedule, id, false, max);
            && k <= left
            && (id in e.store ==> (e.Spent(id, max) <==> k == left))
            && (id !in e.store && !e.down && Ended(s', schedule, id, true, max) == 0 ==> k == left)
  {
    RestartKeepsInv(s, max);
    FailuresAreCounted(Step(s, Restart, max), schedule, id, max);
  }
}
