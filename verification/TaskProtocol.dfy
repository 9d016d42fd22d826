/** The task manager as a protocol: its durable store, its in-memory table, every attempt that was started
    since the process came up, the retry worker, shutdown and restart. One action is what one thread does
    between two points at which another one may run; a schedule is any sequence of actions, so what is
    proved of all schedules holds of every interleaving of requests, worker and completion callbacks.
 */
module TaskProtocol {

  type Id = string

  datatype Status = Pending | Running | Failed | Completed

  /** A task as stored; `count` is retry_count, -1 for a task that never failed. */
  datatype Info = Info(status: Status, count: int)

  /** How far an attempt got: its PENDING save, its submission to the executor, its RUNNING save, its entry
      in the in-memory table together with the completion callback, the callback's removal of that entry,
      and the callback's final save. */
  datatype Phase = Saved | Submitted | Marked | Registered | Popped | Finished(ok: bool)

  /** `count` is the retry_count of the info object that the attempt's thread and its callback share. */
  datatype Attempt = Attempt(id: Id, count: int, phase: Phase) {
    predicate Live() {
      !phase.Finished?
    }
  }

  /** Where the retry worker is, with the ids it has listed and not yet dealt with. */
  datatype Worker = Idle | Retrying(todo: set<Id>) | DroppingSpent(todo: set<Id>) | DroppingDone(todo: set<Id>)

  /** `down` is _shutting_down, `doomed` are the attempts that shutdown picked to mark as failed.
      The rest is history: `starts` counts, for every id, the submissions since its insertion, and `restarts` the
      process restarts; `succeeded` are the tasks whose latest attempt succeeded, and `overruled` those of them
      that shutdown marked as failed after that. */
  datatype State = State(store: map<Id, Info>, attempts: seq<Attempt>, table: map<Id, nat>, worker: Worker,
                         down: bool, doomed: set<nat>, starts: map<Id, nat>, restarts: nat,
                         succeeded: set<Id>, overruled: set<Id>)
  {
    predicate LiveAt(n: nat) {
      n < |attempts| && attempts[n].Live()
    }

    /** An attempt for id is under way. */
    predicate InFlight(id: Id) {
      exists n | 0 <= n < |attempts| :: attempts[n].id == id && attempts[n].Live()
    }

    predicate Retriable(id: Id, max: nat) {
      id in store && store[id].status == Failed && store[id].count < max
    }

    predicate Spent(id: Id, max: nat) {
      id in store && store[id].count >= max
    }

    predicate Done(id: Id) {
      id in store && store[id].status == Completed
    }
  }

  const EMPTY := State(map[], [], map[], Idle, false, {}, map[], 0, {}, {})

  datatype Action =
    | Request(id: Id)             // run_task, up to the PENDING save
    | Work(id: Id)                // the retry worker's next step, on a listed id if there is one
    | Submit(n: nat)
    | Mark(n: nat)
    | Register(n: nat)
    | Pop(n: nat)
    | Settle(n: nat, ok: bool)
    | Shutdown
    | Doom(n: nat)                // shutdown lists a running attempt to be marked as failed
    | MarkDoomed(n: nat)
    | Restart                     // the process ends, for whatever reason, and start() recovers

  /** The check and the first save of run_task_ext, as one step: a PENDING entry and an attempt in hand. */
  function Begin(s: State, id: Id, count: int): State {
    s.(store := s.store[id := Info(Pending, count)], attempts := s.attempts + [Attempt(id, count, Saved)],
       succeeded := s.succeeded - {id}, overruled := s.overruled - {id})
  }

  function SetPhase(s: State, n: nat, p: Phase): State
    requires n < |s.attempts|
  {
    s.(attempts := s.attempts[n := s.attempts[n].(phase := p)])
  }

  /** One step of the retry worker's loop. */
  function WorkerStep(s: State, id: Id, max: nat): State {
    match s.worker
    case Idle =>
      if s.down then s else s.(worker := Retrying(set x | x in s.store && s.Retriable(x, max)))
    case Retrying(todo) =>
      if todo == {} then s.(worker := DroppingSpent(set x | x in s.store && s.Spent(x, max)))
      else if id !in todo then s
      else if s.down then s.(worker := Idle)
      else
        var count := if id in s.store then s.store[id].count else -1;
        Begin(s, id, count).(worker := Retrying(todo - {id}))
    case DroppingSpent(todo) =>
      if todo == {} then s.(worker := DroppingDone(set x | x in s.store && s.Done(x)))
      else if id !in todo then s
      else if id !in s.store then s.(worker := Idle)
      else s.(store := s.store - {id}, worker := DroppingSpent(todo - {id}))
    case DroppingDone(todo) =>
      if todo == {} then s.(worker := Idle)
      else if id !in todo then s
      else if id !in s.store then s.(worker := Idle)
      else s.(store := s.store - {id}, worker := DroppingDone(todo - {id}))
  }

  /** Entries of m are entries of n. */
  predicate Within(m: map<Id, Info>, n: map<Id, Info>) {
    forall id | id in m :: id in n && m[id] == n[id]
  }

  /** The worker retries one task, or else only drops entries and moves on. */
  lemma WorkerShape(s: State, id: Id, max: nat)
    ensures var s' := WorkerStep(s, id, max);
            if s.worker.Retrying? && id in s.worker.todo && !s.down then
              s' == Begin(s, id, if id in s.store then s.store[id].count else -1).(worker := s'.worker)
            else
              && s' == s.(store := s'.store, worker := s'.worker) && Within(s'.store, s.store)
              && (s'.store == s.store || (id in s.store && s'.store == s.store - {id}))
  {
  }

  /** start(): tasks that were running when the process ended count as failed, and get one retry back. */
  function Recovered(i: Info): Info {
    if i.status == Running then Info(Failed, if i.count > 0 then i.count - 1 else i.count) else i
  }

  function Step(s: State, a: Action, max: nat): State {
    match a
    case Request(id) =>
      if s.down || id in s.store then s else Begin(s, id, -1).(starts := s.starts[id := 0])
    case Work(id) => WorkerStep(s, id, max)
    case Submit(n) =>
      if n < |s.attempts| && s.attempts[n].phase == Saved then
        var id := s.attempts[n].id;
        SetPhase(s, n, Submitted).(starts := s.starts[id := (if id in s.starts then s.starts[id] else 0) + 1])
      else s
    case Mark(n) =>
      if n < |s.attempts| && s.attempts[n].phase == Submitted then
        SetPhase(s, n, Marked).(store := s.store[s.attempts[n].id := Info(Running, s.attempts[n].count)])
      else s
    case Register(n) =>
      if n < |s.attempts| && s.attempts[n].phase == Marked then
        SetPhase(s, n, Registered).(table := s.table[s.attempts[n].id := n])
      else s
    case Pop(n) =>
      if n < |s.attempts| && s.attempts[n].phase == Registered && s.attempts[n].id in s.table then
        SetPhase(s, n, Popped).(table := s.table - {s.attempts[n].id})
      else s
    case Settle(n, ok) =>
      if n < |s.attempts| && s.attempts[n].phase == Popped then
        var t := s.attempts[n];
        var count := if ok then t.count else t.count + 1;
        s.(attempts := s.attempts[n := Attempt(t.id, count, Finished(ok))],
           store := s.store[t.id := Info(if ok then Completed else Failed, count)],
           succeeded := if ok then s.succeeded + {t.id} else s.succeeded)
      else s
    case Shutdown => s.(down := true)
    case Doom(n) =>
      if s.down && n < |s.attempts| && s.attempts[n].phase == Registered then s.(doomed := s.doomed + {n}) else s
    case MarkDoomed(n) =>
      if n in s.doomed && n < |s.attempts| then
        s.(store := s.store[s.attempts[n].id := Info(Failed, s.attempts[n].count)],
           overruled := if s.attempts[n].phase == Finished(true) then s.overruled + {s.attempts[n].id} else s.overruled)
      else s
    case Restart =>
      State(map id | id in s.store :: Recovered(s.store[id]), [], map[], Idle, false, {}, s.starts, s.restarts + 1,
            s.succeeded, s.overruled)
  }

  function Run(s: State, schedule: seq<Action>, max: nat): State
    decreases |schedule|
  {
    if schedule == [] then s else Run(Step(s, schedule[0], max), schedule[1..], max)
  }

  lemma {:induction false} RunConcat(s: State, a: seq<Action>, b: seq<Action>, max: nat)
    ensures Run(s, a + b, max) == Run(Run(s, a, max), b, max)
    decreases |a|
  {
    if a == [] {
      assert a + b == b;
    } else {
      assert (a + b)[1..] == a[1..] + b;
      RunConcat(Step(s, a[0], max), a[1..], b, max);
    }
  }

  // ---------------------------------------------------------------- the invariant

  /** A live attempt's task is stored as pending until its RUNNING save and as running from then on (or as
      failed, if shutdown already marked it), with the attempt's own count, and that is below the limit. */
  predicate AttemptOk(s: State, t: Attempt, max: nat) {
    && (t.phase == Registered ==> t.id in s.table)
    && (t.Live() ==>
      && t.id in s.store
      && s.store[t.id].count == t.count < max
      && (match t.phase
          case Saved => s.store[t.id].status == Pending
          case Submitted => s.store[t.id].status == Pending
          case _ => s.store[t.id].status == Running || (s.down && s.store[t.id].status == Failed)))
  }

  predicate EntryOk(s: State, id: Id, max: nat)
    requires id in s.store
  {
    var i := s.store[id];
    && -1 <= i.count <= max
    && (i.status != Failed ==> i.count < max)
  }

  ghost predicate AtMostOneLive(s: State) {
    forall n, m | 0 <= n < m < |s.attempts| && s.attempts[n].Live() && s.attempts[m].Live() ::
        s.attempts[n].id != s.attempts[m].id
  }

  ghost predicate WorkerOk(s: State, max: nat) {
    match s.worker
    case Idle => true
    case Retrying(todo) => !s.down ==> forall id | id in todo :: s.Retriable(id, max)
    case DroppingSpent(todo) => forall id | id in todo ::
        id in s.store && s.store[id].status == Failed && s.store[id].count == max
    case DroppingDone(todo) =>
      forall id | id in todo :: !s.InFlight(id) && id in s.store
          && (s.store[id].status == Completed || (s.down && s.store[id].status == Failed))
  }

  /** An attempt that shutdown picked is the last one for its task. */
  ghost predicate DoomedOk(s: State, max: nat) {
    forall n | n in s.doomed ::
      && s.down && n < |s.attempts| && -1 <= s.attempts[n].count <= max
      && (s.attempts[n].Live() ==> s.attempts[n].phase.Registered? || s.attempts[n].phase.Popped?)
      && (s.attempts[n].id in s.store ==> s.store[s.attempts[n].id].count == s.attempts[n].count)
      && (forall m | 0 <= m < |s.attempts| && m != n && (s.attempts[m].Live() || m in s.doomed) ::
          s.attempts[m].id != s.attempts[n].id)
  }

  ghost predicate AttemptsOk(s: State, max: nat) {
    forall n | 0 <= n < |s.attempts| :: AttemptOk(s, s.attempts[n], max)
  }

  ghost predicate StoreOk(s: State, max: nat) {
    forall id | id in s.store :: EntryOk(s, id, max)
  }

  ghost predicate Inv(s: State, max: nat) {
    AttemptsOk(s, max) && StoreOk(s, max) && AtMostOneLive(s) && WorkerOk(s, max) && DoomedOk(s, max)
  }

  /** A new attempt for a task that is not in flight. */
  lemma BeginKeepsInv(s: State, id: Id, count: int, max: nat)
    requires Inv(s, max) && !s.down && !s.InFlight(id) && -1 <= count < max
    requires s.worker.Retrying? ==> id !in s.worker.todo
    requires s.worker.DroppingSpent? || s.worker.DroppingDone? ==> id !in s.worker.todo
    ensures Inv(Begin(s, id, count), max)
  {
  }

  lemma DropKeepsInv(s: State, id: Id, max: nat)
    requires Inv(s, max) && (s.worker.DroppingSpent? || s.worker.DroppingDone?) && id in s.worker.todo
    ensures !s.InFlight(id) && Inv(WorkerStep(s, id, max), max)
  {
  }

  lemma ListKeepsInv(s: State, w: Worker, max: nat)
    requires Inv(s, max) && WorkerOk(s.(worker := w), max)
    ensures Inv(s.(worker := w), max)
  {
  }

  lemma WorkerKeepsInv(s: State, id: Id, max: nat)
    requires Inv(s, max)
    ensures Inv(WorkerStep(s, id, max), max)
  {
    if (s.worker.DroppingSpent? || s.worker.DroppingDone?) && id in s.worker.todo {
      DropKeepsInv(s, id, max);
    } else if s.worker.Retrying? && id in s.worker.todo && !s.down {
      BeginKeepsInv(s.(worker := Retrying(s.worker.todo - {id})), id, s.store[id].count, max);
    } else {
      ListKeepsInv(s, WorkerStep(s, id, max).worker, max);
    }
  }

  /** A live attempt moves on, and its task's entries with it. */
  function Advance(s: State, n: nat, t: Attempt, i: Info): State
    requires n < |s.attempts|
  {
    s.(attempts := s.attempts[n := t], store := s.store[t.id := i],
       table := if t.phase == Registered then s.table[t.id := n] else s.table - {t.id},
       succeeded := if t.phase == Finished(true) then s.succeeded + {t.id} else s.succeeded)
  }

  lemma AdvanceKeepsInv(s: State, n: nat, t: Attempt, i: Info, max: nat)
    requires Inv(s, max) && s.LiveAt(n) && t.id == s.attempts[n].id && i.count == t.count
    requires -1 <= i.count <= max && (i.status != Failed ==> i.count < max)
    requires n in s.doomed ==> !t.Live() || t.phase.Popped?
    requires t.Live() ==> AttemptOk(s.(store := map[t.id := i], table := map[t.id := n]), t, max)
    ensures Inv(Advance(s, n, t, i), max)
  {
  }

  lemma RestartKeepsInv(s: State, max: nat)
    requires Inv(s, max)
    ensures Inv(Step(s, Restart, max), max)
  {
  }

  lemma MarkDoomedKeepsInv(s: State, n: nat, max: nat)
    requires Inv(s, max) && n in s.doomed
    ensures Inv(Step(s, MarkDoomed(n), max), max)
  {
  }

  /** Every action keeps the invariant. */
  lemma StepKeepsInv(s: State, a: Action, max: nat)
    requires Inv(s, max)
    ensures Inv(Step(s, a, max), max)
  {
    match a
    case Request(id) =>
      if !s.down && id !in s.store {
        BeginKeepsInv(s, id, -1, max);
      }
    case Work(id) => WorkerKeepsInv(s, id, max);
    case Restart => RestartKeepsInv(s, max);
    case MarkDoomed(n) =>
      if n in s.doomed {
        MarkDoomedKeepsInv(s, n, max);
      }
    case Shutdown =>
    case Doom(n) =>
    case Mark(_) => SaveKeepsInv(s, a, max);
    case Settle(_, _) => SaveKeepsInv(s, a, max);
    case _ => MoveKeepsInv(s, a, max);
  }

  /** An attempt's action that saves the task. */
  lemma SaveKeepsInv(s: State, a: Action, max: nat)
    requires Inv(s, max) && (a.Mark? || a.Settle?)
    ensures Inv(Step(s, a, max), max)
  {
    var s' := Step(s, a, max);
    if s' != s {
      var t := s'.attempts[a.n];
      AdvanceKeepsInv(s, a.n, t, s'.store[t.id], max);
    }
  }

  /** An attempt's action that leaves the store alone. */
  lemma MoveKeepsInv(s: State, a: Action, max: nat)
    requires Inv(s, max) && (a.Submit? || a.Register? || a.Pop?)
    ensures Inv(Step(s, a, max), max)
  {
    var s' := Step(s, a, max);
    if s' != s {
      var t := s'.attempts[a.n];
      AdvanceKeepsInv(s, a.n, t, s.store[t.id], max);
      assert s.store[t.id := s.store[t.id]] == s.store;
    }
  }

  lemma {:induction false} RunKeepsInv(s: State, schedule: seq<Action>, max: nat)
    requires Inv(s, max)
    ensures Inv(Run(s, schedule, max), max)
    decreases |schedule|
  {
    if schedule != [] {
      StepKeepsInv(s, schedule[0], max);
      RunKeepsInv(Step(s, schedule[0], max), schedule[1..], max);
    }
  }

  // ---------------------------------------------------------------- what follows for every schedule

  /** Whatever the interleaving, no task id has two attempts under way, and no save of a RUNNING state can
      overwrite anything but the PENDING entry of the same attempt. */
  lemma OneAttemptPerTask(schedule: seq<Action>, max: nat)
    ensures var s := Run(EMPTY, schedule, max);
            && (forall n: nat, m: nat | s.LiveAt(n) && s.LiveAt(m) && s.attempts[n].id == s.attempts[m].id :: n == m)
            && (forall n | 0 <= n < |s.attempts| && s.attempts[n].phase == Submitted ::
                  s.attempts[n].id in s.store && s.store[s.attempts[n].id] == Info(Pending, s.attempts[n].count))
  {
    RunKeepsInv(EMPTY, schedule, max);
  }
}
