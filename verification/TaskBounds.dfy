/** How often a task can be started, and why the retry worker finishes. */
module TaskBounds {
  import opened TaskProtocol

  // ---------------------------------------------------------------- the number of starts

  /** What a task may have been started so far, given how often it failed and how often the process restarted:
      once per counted failure, once for an attempt under way, and twice per restart. */
  ghost predicate Budget(s: State, max: nat) {
    && (forall id | id in s.store ::
          && id in s.starts
          && s.starts[id] <= max + 1 + 2 * s.restarts
          && s.starts[id] <= s.store[id].count + 2 + 2 * s.restarts
          && (s.store[id].status == Failed && !s.down ==> s.starts[id] <= s.store[id].count + 1 + 2 * s.restarts))
    && (forall n | 0 <= n < |s.attempts| && s.attempts[n].phase == Saved ::
          s.attempts[n].id in s.starts && s.starts[s.attempts[n].id] <= s.attempts[n].count + 1 + 2 * s.restarts)
    && (forall n | n in s.doomed && n < |s.attempts| ::
          && s.attempts[n].id in s.starts
          && s.starts[s.attempts[n].id] <= s.attempts[n].count + 2 + 2 * s.restarts
          && s.starts[s.attempts[n].id] <= max + 1 + 2 * s.restarts)
  }

  lemma BeginKeepsBudget(s: State, id: Id, count: int, max: nat)
    requires Budget(s, max) && !s.down && id in s.store && s.store[id] == Info(Failed, count)
    ensures Budget(Begin(s, id, count), max)
  {
  }

  /** Dropping tasks, and the worker's own state, do not matter. */
  lemma DropKeepsBudget(s: State, s': State, max: nat)
    requires Budget(s, max) && s' == s.(store := s'.store, worker := s'.worker)
    requires Within(s'.store, s.store)
    ensures Budget(s', max)
  {
  }

  lemma WorkerKeepsBudget(s: State, id: Id, max: nat)
    requires WorkerOk(s, max) && Budget(s, max)
    ensures Budget(WorkerStep(s, id, max), max)
  {
    var s' := WorkerStep(s, id, max);
    WorkerShape(s, id, max);
    if s.worker.Retrying? && id in s.worker.todo && !s.down {
      assert s.Retriable(id, max);
      BeginKeepsBudget(s, id, s.store[id].count, max);
      DropKeepsBudget(Begin(s, id, s.store[id].count), s', max);
    } else {
      DropKeepsBudget(s, s', max);
    }
  }

  lemma SubmitKeepsBudget(s: State, n: nat, max: nat)
    requires Inv(s, max) && Budget(s, max)
    ensures Budget(Step(s, Submit(n), max), max)
  {
  }

  lemma SettleKeepsBudget(s: State, n: nat, ok: bool, max: nat)
    requires Inv(s, max) && Budget(s, max)
    ensures Budget(Step(s, Settle(n, ok), max), max)
  {
  }

  lemma MarkKeepsBudget(s: State, n: nat, max: nat)
    requires Inv(s, max) && Budget(s, max)
    ensures Budget(Step(s, Mark(n), max), max)
  {
  }

  lemma RequestKeepsBudget(s: State, id: Id, max: nat)
    requires Budget(s, max)
    ensures Budget(Step(s, Request(id), max), max)
  {
  }

  lemma RestartKeepsBudget(s: State, max: nat)
    requires Budget(s, max)
    ensures Budget(Step(s, Restart, max), max)
  {
  }

  lemma DoomKeepsBudget(s: State, n: nat, max: nat)
    requires Inv(s, max) && Budget(s, max)
    ensures Budget(Step(s, Doom(n), max), max)
  {
  }

  lemma MarkDoomedKeepsBudget(s: State, n: nat, max: nat)
    requires Inv(s, max) && Budget(s, max)
    ensures Budget(Step(s, MarkDoomed(n), max), max)
  {
  }

  /** The actions that touch neither the store nor the starts of a task. */
  lemma MoveKeepsBudget(s: State, a: Action, max: nat)
    requires Budget(s, max) && (a.Shutdown? || a.Register? || a.Pop?)
    ensures Budget(Step(s, a, max), max)
  {
  }

  lemma StepKeepsBudget(s: State, a: Action, max: nat)
    requires Inv(s, max) && Budget(s, max)
    ensures Budget(Step(s, a, max), max)
  {
    match a
    case Work(id) => WorkerKeepsBudget(s, id, max);
    case Submit(n) => SubmitKeepsBudget(s, n, max);
    case Mark(n) => MarkKeepsBudget(s, n, max);
    case Settle(n, ok) => SettleKeepsBudget(s, n, ok, max);
    case Request(id) => RequestKeepsBudget(s, id, max);
    case Restart => RestartKeepsBudget(s, max);
    case Doom(n) => DoomKeepsBudget(s, n, max);
    case MarkDoomed(n) => MarkDoomedKeepsBudget(s, n, max);
    case _ => MoveKeepsBudget(s, a, max);
  }

  lemma {:induction false} RunKeepsBudget(s: State, schedule: seq<Action>, max: nat)
    requires Inv(s, max) && Budget(s, max)
    ensures Inv(Run(s, schedule, max), max) && Budget(Run(s, schedule, max), max)
    decreases |schedule|
  {
    if schedule != [] {
      StepKeepsInv(s, schedule[0], max);
      StepKeepsBudget(s, schedule[0], max);
      RunKeepsBudget(Step(s, schedule[0], max), schedule[1..], max);
    }
  }

  /** Over every schedule with k restarts, a stored task was started at most max + 1 + 2k times since its insertion. */
  lemma StartsAreBounded(schedule: seq<Action>, id: Id, max: nat)
    requires id in Run(EMPTY, schedule, max).store
    ensures var s := Run(EMPTY, schedule, max);
            id in s.starts && s.starts[id] <= max + 1 + 2 * s.restarts
  {
    RunKeepsBudget(EMPTY, schedule, max);
  }

  // ---------------------------------------------------------------- the worker finishes

  /** What a stored task can still cost, not counting the steps of an attempt under way. */
  function EntryCost(i: Info, max: nat): nat
    requires i.count <= max && (i.status != Failed ==> i.count < max)
  {
    match i.status
    case Failed => 7 * (max - i.count) + 1
    case Completed => 1
    case _ => 7 * (max - i.count) - 6
  }

  /** The steps an attempt has before it. */
  function PhaseCost(p: Phase): nat {
    match p
    case Saved => 5
    case Submitted => 4
    case Marked => 3
    case Registered => 2
    case Popped => 1
    case Finished(_) => 0
  }

  function AttemptsCost(attempts: seq<Attempt>): nat {
    if attempts == [] then 0 else AttemptsCost(attempts[..|attempts| - 1]) + PhaseCost(attempts[|attempts| - 1].phase)
  }

  ghost predicate Costed(store: map<Id, Info>, max: nat) {
    forall id | id in store :: store[id].count <= max && (store[id].status != Failed ==> store[id].count < max)
  }

  ghost function StoreCost(store: map<Id, Info>, max: nat): nat
    requires Costed(store, max)
    decreases |store|
  {
    if store == map[] then 0
    else
      var id :| id in store;
      EntryCost(store[id], max) + StoreCost(store - {id}, max)
  }

  ghost function Cost(s: State, max: nat): nat
    requires Inv(s, max)
  {
    StoreCost(s.store, max) + AttemptsCost(s.attempts)
  }

  /** The order in which the entries are added up does not matter. */
  lemma {:induction false} StoreCostWithout(store: map<Id, Info>, id: Id, max: nat)
    requires Costed(store, max) && id in store
    ensures StoreCost(store, max) == EntryCost(store[id], max) + StoreCost(store - {id}, max)
    decreases |store|
  {
    var x :| x in store && StoreCost(store, max) == EntryCost(store[x], max) + StoreCost(store - {x}, max);
    if x != id {
      StoreCostWithout(store - {x}, id, max);
      StoreCostWithout(store - {id}, x, max);
      assert store - {x} - {id} == store - {id} - {x};
    }
  }

  lemma StoreCostUpdate(store: map<Id, Info>, id: Id, i: Info, max: nat)
    requires Costed(store, max) && id in store && i.count <= max && (i.status != Failed ==> i.count < max)
    ensures StoreCost(store[id := i], max) == StoreCost(store, max) - EntryCost(store[id], max) + EntryCost(i, max)
  {
    StoreCostWithout(store, id, max);
    StoreCostWithout(store[id := i], id, max);
    assert store[id := i] - {id} == store - {id};
  }

  lemma {:induction false} AttemptsCostUpdate(attempts: seq<Attempt>, n: nat, t: Attempt)
    requires n < |attempts|
    ensures AttemptsCost(attempts[n := t]) == AttemptsCost(attempts) - PhaseCost(attempts[n].phase) + PhaseCost(t.phase)
  {
    var last := |attempts| - 1;
    if n == last {
      assert attempts[n := t][..last] == attempts[..last];
    } else {
      AttemptsCostUpdate(attempts[..last], n, t);
      assert attempts[n := t][..last] == attempts[..last][n := t];
    }
  }

  /** An action of the worker or of an attempt; without new requests, shutdowns and restarts there are no others. */
  predicate Internal(a: Action) {
    a.Work? || a.Submit? || a.Mark? || a.Register? || a.Pop? || a.Settle?
  }

  lemma MoveCosts(s: State, a: Action, max: nat)
    requires Inv(s, max) && Internal(a) && !a.Work? && Step(s, a, max) != s
    ensures Inv(Step(s, a, max), max) && Cost(Step(s, a, max), max) < Cost(s, max)
  {
    StepKeepsInv(s, a, max);
    var s' := Step(s, a, max);
    AttemptsCostUpdate(s.attempts, a.n, s'.attempts[a.n]);
    if a.Mark? || a.Settle? {
      var id := s.attempts[a.n].id;
      StoreCostUpdate(s.store, id, s'.store[id], max);
    }
  }

  lemma BeginCosts(s: State, id: Id, max: nat)
    requires Inv(s, max) && s.Retriable(id, max)
    ensures var s' := Begin(s, id, s.store[id].count);
            Costed(s'.store, max) && StoreCost(s'.store, max) + AttemptsCost(s'.attempts) < Cost(s, max)
  {
    var s' := Begin(s, id, s.store[id].count);
    StoreCostUpdate(s.store, id, Info(Pending, s.store[id].count), max);
    assert s'.attempts[..|s.attempts|] == s.attempts;
  }

  lemma WorkCosts(s: State, id: Id, max: nat)
    requires Inv(s, max)
    ensures var s' := WorkerStep(s, id, max);
            Inv(s', max) && (if s'.store == s.store then Cost(s', max) == Cost(s, max)
                else Cost(s', max) < Cost(s, max))
  {
    WorkerKeepsInv(s, id, max);
    WorkerShape(s, id, max);
    if s.worker.Retrying? && id in s.worker.todo && !s.down {
      BeginCosts(s, id, max);
    } else {
      DropCosts(s, WorkerStep(s, id, max), id, max);
    }
  }

  lemma DropCosts(s: State, s': State, id: Id, max: nat)
    requires Inv(s, max) && Inv(s', max) && s'.attempts == s.attempts
    requires s'.store == s.store || (id in s.store && s'.store == s.store - {id})
    ensures if s'.store == s.store then Cost(s', max) == Cost(s, max) else Cost(s', max) < Cost(s, max)
  {
    if s'.store != s.store {
      StoreCostWithout(s.store, id, max);
    }
  }
}
