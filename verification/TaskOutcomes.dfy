/** What becomes of an attempt's outcome: when the worker removes a task, and when a task that succeeded is started
    again. Shutdown may mark an attempt as failed that it saw running and that has succeeded since. */
module TaskOutcomes {
  import opened TaskProtocol

  /** A stored task is completed exactly if its latest attempt succeeded and was not overruled; one that was overruled
      is failed, with retries left. */
  ghost predicate Settled(s: State, max: nat) {
    && s.overruled <= s.succeeded
    && (forall id | id in s.store :: s.store[id].status == Completed <==> id in s.succeeded && id !in s.overruled)
    && (forall id | id in s.store && id in s.overruled :: s.Retriable(id, max))
    && (s.worker.DroppingDone? ==> s.worker.todo <= s.succeeded)
    && AttemptsSettled(s, max)
  }

  ghost predicate AttemptsSettled(s: State, max: nat) {
    && (forall n | 0 <= n < |s.attempts| && s.attempts[n].Live() :: s.attempts[n].id !in s.succeeded)
    && (forall n | n in s.doomed && n < |s.attempts| && s.attempts[n].phase.Finished? ::
          && (s.attempts[n].phase.ok <==> s.attempts[n].id in s.succeeded)
          && (s.attempts[n].phase.ok ==> s.attempts[n].count < max))
  }

  lemma BeginSettles(s: State, id: Id, count: int, max: nat)
    requires Inv(s, max) && Settled(s, max) && !s.down
    requires s.worker.DroppingDone? ==> id !in s.worker.todo
    ensures Settled(Begin(s, id, count), max)
  {
  }

  lemma WorkerSettles(s: State, id: Id, max: nat)
    requires Inv(s, max) && Settled(s, max)
    ensures Settled(WorkerStep(s, id, max), max)
  {
    var s' := WorkerStep(s, id, max);
    WorkerShape(s, id, max);
    if s.worker.Retrying? && id in s.worker.todo && !s.down {
      BeginSettles(s, id, s.store[id].count, max);
    }
  }

  lemma SettleSettles(s: State, n: nat, ok: bool, max: nat)
    requires Inv(s, max) && Settled(s, max)
    ensures Settled(Step(s, Settle(n, ok), max), max)
  {
  }

  lemma MarkDoomedSettles(s: State, n: nat, max: nat)
    requires Inv(s, max) && Settled(s, max)
    ensures Settled(Step(s, MarkDoomed(n), max), max)
  {
  }

  lemma MoveSettles(s: State, a: Action, max: nat)
    requires Inv(s, max) && Settled(s, max) && (a.Submit? || a.Mark? || a.Register? || a.Pop?)
    ensures Settled(Step(s, a, max), max)
  {
  }

  lemma StepSettles(s: State, a: Action, max: nat)
    requires Inv(s, max) && Settled(s, max)
    ensures Settled(Step(s, a, max), max)
  {
    match a
    case Request(id) =>
      if !s.down && id !in s.store {
        BeginSettles(s, id, -1, max);
      }
    case Work(id) => WorkerSettles(s, id, max);
    case Settle(n, ok) => SettleSettles(s, n, ok, max);
    case MarkDoomed(n) => MarkDoomedSettles(s, n, max);
    case Shutdown =>
    case Doom(_) =>
    case Restart =>
    case _ => MoveSettles(s, a, max);
  }

  lemma {:induction false} RunSettles(s: State, schedule: seq<Action>, max: nat)
    requires Inv(s, max) && Settled(s, max)
    ensures Inv(Run(s, schedule, max), max) && Settled(Run(s, schedule, max), max)
    decreases |schedule|
  {
    if schedule != [] {
      StepKeepsInv(s, schedule[0], max);
      StepSettles(s, schedule[0], max);
      RunSettles(Step(s, schedule[0], max), schedule[1..], max);
    }
  }

  /** In every schedule: what the worker removes is not under way, and it is completed, or failed without retries left,
      except exactly for a task that shutdown overruled after the worker had listed it as completed. */
  lemma WorkerDropsOnlyFinished(schedule: seq<Action>, id: Id, dropped: Id, max: nat)
    requires var s := Run(EMPTY, schedule, max); dropped in s.store && dropped !in WorkerStep(s, id, max).store
    ensures var s := Run(EMPTY, schedule, max);
            && dropped == id && !s.InFlight(id)
            && (!(s.Done(id) || s.store[id] == Info(Failed, max)) <==> s.worker.DroppingDone? && id in s.overruled)
            && (id in s.overruled ==> s.down && s.Retriable(id, max))
  {
    RunSettles(EMPTY, schedule, max);
    var s := Run(EMPTY, schedule, max);
    WorkerShape(s, id, max);
    DropKeepsInv(s, id, max);
  }

  /** What the worker lists as completed was not overruled before. */
  lemma ListedIsNotOverruled(schedule: seq<Action>, id: Id, max: nat)
    requires var s := Run(EMPTY, schedule, max); s.worker == DroppingSpent({})
    ensures var w := WorkerStep(Run(EMPTY, schedule, max), id, max).worker;
            w.DroppingDone? && w.todo !! Run(EMPTY, schedule, max).overruled
  {
    RunSettles(EMPTY, schedule, max);
  }

  /** A stored task whose latest attempt succeeded is completed, and never started again, except exactly if shutdown
      overruled it: then it is retriable. */
  lemma SuccessIsFinalUnlessOverruled(schedule: seq<Action>, id: Id, max: nat)
    requires var s := Run(EMPTY, schedule, max); id in s.store && id in s.succeeded
    ensures var s := Run(EMPTY, schedule, max);
            && (s.Done(id) <==> id !in s.overruled)
            && (s.Retriable(id, max) <==> id in s.overruled)
            && !s.InFlight(id)
  {
    RunSettles(EMPTY, schedule, max);
  }

  /** No action starts another attempt for such a task. */
  lemma SucceededIsNotStarted(schedule: seq<Action>, a: Action, id: Id, max: nat)
    requires var s := Run(EMPTY, schedule, max); id in s.store && id in s.succeeded && id !in s.overruled
    ensures var s := Run(EMPTY, schedule, max);
            var s' := Step(s, a, max);
            id in s'.store ==> id in s'.succeeded && !s'.InFlight(id)
  {
    RunSettles(EMPTY, schedule, max);
    var s := Run(EMPTY, schedule, max);
    StepKeepsInv(s, a, max);
    StepSettles(s, a, max);
    if a.Work? {
      WorkerShape(s, a.id, max);
    }
  }

  // ---------------------------------------------------------------- schedules in which that happens

  /** One action more, from a known state to a known one. */
  lemma Then(schedule: seq<Action>, s: State, a: Action, s': State, max: nat) returns (longer: seq<Action>)
    requires Run(EMPTY, schedule, max) == s && Step(s, a, max) == s'
    ensures longer == schedule + [a] && Run(EMPTY, longer, max) == s'
  {
    longer := schedule + [a];
    RunConcat(EMPTY, schedule, [a], max);
    assert Run(s, [a], max) == Run(s', [], max);
  }

  /** A task under way. */
  lemma OneRunning(max: nat) returns (schedule: seq<Action>, s: State)
    requires max > 0
    ensures Run(EMPTY, schedule, max) == s
    ensures s == EMPTY.(store := map["t" := Info(Running, -1)], attempts := [Attempt("t", -1, Registered)],
                        table := map["t" := 0], starts := map["t" := 1])
  {
    var s1 := EMPTY.(store := map["t" := Info(Pending, -1)], attempts := [Attempt("t", -1, Saved)],
        starts := map["t" := 0]);
    schedule := Then([], EMPTY, Request("t"), s1, max);
    var s2 := s1.(attempts := [Attempt("t", -1, Submitted)], starts := map["t" := 1]);
    schedule := Then(schedule, s1, Submit(0), s2, max);
    var s3 := s2.(store := map["t" := Info(Running, -1)], attempts := [Attempt("t", -1, Marked)]);
    schedule := Then(schedule, s2, Mark(0), s3, max);
    s := s3.(attempts := [Attempt("t", -1, Registered)], table := map["t" := 0]);
    schedule := Then(schedule, s3, Register(0), s, max);
  }

  /** From there: shutdown sees it running, then it succeeds. */
  lemma SucceedsWhenDoomed(schedule: seq<Action>, s: State, max: nat) returns (longer: seq<Action>, s': State)
    requires Run(EMPTY, schedule, max) == s && !s.down && s.doomed == {} && s.succeeded == {}
    requires s.store == map["t" := Info(Running, -1)] && s.table == map["t" := 0]
               && s.attempts == [Attempt("t", -1, Registered)]
    ensures Run(EMPTY, longer, max) == s'
    ensures s' == s.(store := map["t" := Info(Completed, -1)], attempts := [Attempt("t", -1, Finished(true))],
                     table := map[], down := true, doomed := {0}, succeeded := {"t"})
  {
    var s1 := s.(down := true);
    longer := Then(schedule, s, Shutdown, s1, max);
    var s2 := s1.(doomed := {0});
    longer := Then(longer, s1, Doom(0), s2, max);
    var s3 := s2.(attempts := [Attempt("t", -1, Popped)], table := map[]);
    longer := Then(longer, s2, Pop(0), s3, max);
    s' := s3.(store := map["t" := Info(Completed, -1)], attempts := [Attempt("t", -1, Finished(true))],
        succeeded := {"t"});
    longer := Then(longer, s3, Settle(0, true), s', max);
  }

  /** The worker finds nothing to retry, and nothing that is out of retries. */
  lemma WorkerFindsNothing(max: nat) returns (schedule: seq<Action>, s': State)
    requires max > 0
    ensures Run(EMPTY, schedule, max) == s'
    ensures s' == EMPTY.(store := map["t" := Info(Running, -1)], attempts := [Attempt("t", -1, Registered)],
                         table := map["t" := 0], starts := map["t" := 1], worker := DroppingSpent({}))
  {
    var s;
    schedule, s := OneRunning(max);
    var s1 := s.(worker := Retrying({}));
    assert (set x | x in s.store && s.Retriable(x, max)) == {};
    schedule := Then(schedule, s, Work("t"), s1, max);
    s' := s1.(worker := DroppingSpent({}));
    assert (set x | x in s1.store && s1.Spent(x, max)) == {};
    schedule := Then(schedule, s1, Work("t"), s', max);
  }

  /** The worker removes a task that is stored as failed and has all its retries left. */
  lemma DropsAFailedTask(max: nat) returns (schedule: seq<Action>)
    requires max > 0
    ensures var s := Run(EMPTY, schedule, max);
            "t" in s.store && s.store["t"] == Info(Failed, -1) && "t" !in WorkerStep(s, "t", max).store
  {
    var s2, s3;
    schedule, s2 := WorkerFindsNothing(max);
    schedule, s3 := SucceedsWhenDoomed(schedule, s2, max);
    var s4 := s3.(worker := DroppingDone({"t"}));
    assert (set x | x in s3.store && s3.Done(x)) == {"t"};
    schedule := Then(schedule, s3, Work("t"), s4, max);
    var s5 := s4.(store := map["t" := Info(Failed, -1)], overruled := {"t"});
    schedule := Then(schedule, s4, MarkDoomed(0), s5, max);
  }

  /** A task that succeeded is started again, by the next process. */
  lemma StartsASucceededTask(max: nat) returns (schedule: seq<Action>, more: seq<Action>)
    requires max > 0
    ensures var s := Run(EMPTY, schedule, max); s.succeeded == {"t"} && s.starts == map["t" := 1]
    ensures schedule <= more && Run(EMPTY, more, max).starts == map["t" := 2]
  {
    var s;
    schedule, s := OneRunning(max);
    schedule, s := SucceedsWhenDoomed(schedule, s, max);
    var s1 := s.(store := map["t" := Info(Failed, -1)], overruled := {"t"});
    more := Then(schedule, s, MarkDoomed(0), s1, max);
    var s2 := s1.(attempts := [], down := false, doomed := {}, restarts := 1);
    assert (map id | id in s1.store :: Recovered(s1.store[id])) == s1.store;
    more := Then(more, s1, Restart, s2, max);
    ghost var before := more;
    more := StartsARetriableTask(more, s2, max);
    assert schedule <= before <= more;
  }

  lemma StartsARetriableTask(schedule: seq<Action>, s: State, max: nat) returns (more: seq<Action>)
    requires max > 0 && Run(EMPTY, schedule, max) == s && s.store == map["t" := Info(Failed, -1)]
    requires s.attempts == [] && s.worker.Idle? && !s.down && s.starts == map["t" := 1]
    ensures schedule <= more && Run(EMPTY, more, max).starts == map["t" := 2]
  {
    var s1 := s.(worker := Retrying({"t"}));
    assert (set x | x in s.store && s.Retriable(x, max)) == {"t"};
    more := Then(schedule, s, Work("t"), s1, max);
    var s2 := Begin(s1, "t", -1).(worker := Retrying({}));
    assert {"t"} - {"t"} == {};
    more := Then(more, s1, Work("t"), s2, max);
    var s3 := s2.(attempts := [Attempt("t", -1, Submitted)], starts := map["t" := 2]);
    more := Then(more, s2, Submit(0), s3, max);
  }

  // ---------------------------------------------------------------- a recovery that is cut short

  /** start() saves the recovered tasks one by one. If it ends after those in `ids`, the next one ends where it
      would have. */
  lemma RecoveryMayBeRepeated(s: State, ids: set<Id>, max: nat)
    requires Inv(s, max)
    ensures var half := s.(store := map id | id in s.store ::
              if id in ids then Recovered(s.store[id]) else s.store[id]);
            Step(half, Restart, max) == Step(s, Restart, max)
  {
    var half := map id | id in s.store :: if id in ids then Recovered(s.store[id]) else s.store[id];
    assert (map id | id in half :: Recovered(half[id])) == map id | id in s.store :: Recovered(s.store[id]);
  }
}
