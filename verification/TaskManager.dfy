/** The task manager's code: the store on disk, the in-memory table and the flag that its methods update in
    place. `history` records the protocol's actions that the methods amount to, and `Valid` says that the
    manager's fields are what the protocol has after them: whatever is proved of all schedules holds here. */
module TaskManagers {
  import opened Outcomes
  import opened TaskProtocol
  import opened TaskLiveness

  /** What the submission, the RUNNING save and the registration of an attempt come to. */
  lemma LaunchSteps(s: State, n: nat, max: nat)
    requires n < |s.attempts| && s.attempts[n].phase == Saved
    ensures var s' := Run(s, [Submit(n), Mark(n), Register(n)], max);
            var t := s.attempts[n];
            && s'.store == s.store[t.id := Info(Running, t.count)]
            && s'.table == s.table[t.id := n]
            && s'.attempts == s.attempts[n := t.(phase := Registered)]
            && s'.down == s.down && s'.worker == s.worker
  {
    var s1 := Step(s, Submit(n), max);
    var s2 := Step(s1, Mark(n), max);
    var s3 := Step(s2, Register(n), max);
    assert Run(s2, [Register(n)], max) == Run(s3, [], max);
    assert Run(s1, [Mark(n), Register(n)], max) == Run(s2, [Register(n)], max);
    assert [Submit(n), Mark(n), Register(n)][1..] == [Mark(n), Register(n)];
  }

  /** What the two steps of a completion callback come to. */
  lemma FinishSteps(s: State, n: nat, ok: bool, max: nat)
    requires n < |s.attempts| && s.attempts[n].phase == Registered && s.attempts[n].id in s.table
    ensures var s' := Run(s, [Pop(n), Settle(n, ok)], max);
            var t := s.attempts[n];
            var count := if ok then t.count else t.count + 1;
            && s'.store == s.store[t.id := Info(if ok then Completed else Failed, count)]
            && s'.table == s.table - {t.id}
            && s'.attempts == s.attempts[n := Attempt(t.id, count, Finished(ok))]
            && s'.down == s.down && s'.worker == s.worker
  {
    var s1 := Step(s, Pop(n), max);
    assert Run(s1, [Settle(n, ok)], max) == Step(s1, Settle(n, ok), max);
    assert [Pop(n), Settle(n, ok)][1..] == [Settle(n, ok)];
  }

  /** The attempts have the counts of their info objects, and the table holds the registered ones under their ids. */
  ghost predicate Matches(attempts: seq<Attempt>, infos: seq<Info>, table: map<Id, nat>) {
    && |attempts| >= |infos|
    && (forall n | 0 <= n < |infos| :: attempts[n].count == infos[n].count)
    && (forall id | id in table ::
          table[id] < |infos| && attempts[table[id]].id == id && attempts[table[id]].phase == Registered)
  }

  lemma MatchesLaunched(attempts: seq<Attempt>, infos: seq<Info>, table: map<Id, nat>)
    requires Matches(attempts, infos, table) && |attempts| == |infos| + 1
    ensures var t := attempts[|infos|];
            Matches(attempts[|infos| := t.(phase := Registered)], infos + [Info(Running, t.count)],
                table[t.id := |infos|])
  {
  }

  lemma MatchesFinished(attempts: seq<Attempt>, infos: seq<Info>, table: map<Id, nat>, n: nat, ok: bool)
    requires Matches(attempts, infos, table) && n < |infos| && attempts[n].id in table && table[attempts[n].id] == n
    ensures var id, count := attempts[n].id, infos[n].count + (if ok then 0 else 1);
            Matches(attempts[n := Attempt(id, count, Finished(ok))],
                    infos[n := Info(if ok then Completed else Failed, count)], table - {id})
  {
  }

  class TaskManager {
    const maxRetry: nat
    var store: map<Id, Info>
    /** _tasks: the attempt whose future and callback an id has. */
    var table: map<Id, nat>
    /** The info objects, one per attempt. */
    var infos: seq<Info>
    var shuttingDown: bool
    ghost var history: seq<Action>
    ghost var p: State

    /** The protocol's state is the one that the recorded actions lead to. */
    ghost predicate Recorded()
      reads this
    {
      p == Run(EMPTY, history, maxRetry)
    }

    ghost predicate Valid()
      reads this
    {
      && Recorded()
      && p.store == store && p.table == table && p.down == shuttingDown && |p.attempts| == |infos|
      && Matches(p.attempts, infos, table)
    }

    constructor (maxRetry: nat)
      ensures Valid() && this.maxRetry == maxRetry && store == map[] && !shuttingDown && history == []
    {
      this.maxRetry := maxRetry;
      store, table, infos, shuttingDown, history, p := map[], map[], [], false, [], EMPTY;
    }

    ghost method Log(actions: seq<Action>)
      requires Recorded()
      modifies this`history, this`p
      ensures Recorded() && history == old(history) + actions
      ensures p == Run(old(p), actions, maxRetry)
    {
      RunConcat(EMPTY, history, actions, maxRetry);
      history, p := history + actions, Run(p, actions, maxRetry);
    }

    /** save_task. */
    method SaveTask(id: Id, info: Info)
      modifies this`store
      ensures store == old(store)[id := info]
    {
      store := store[id := info];
    }

    /** remove_task; raises if the task is not stored. */
    method RemoveTask(id: Id) returns (o: Outcome)
      modifies this`store
      ensures o.Done? <==> id in old(store)
      ensures store == old(store) - {id}
    {
      if id !in store {
        return Raised;
      }
      store := store - {id};
      o := Done;
    }

    /** The submission, the RUNNING save and the registration: what run_task_ext does after its first save. */
    method Launch(id: Id, count: int)
      requires Recorded() && p.store == store && p.table == table && p.down == shuttingDown
                 && |p.attempts| == |infos| + 1
      requires Matches(p.attempts, infos, table)
      requires p.attempts[|infos|] == Attempt(id, count, Saved)
      modifies this
      ensures Valid() && old(history) <= history
      ensures store == old(store)[id := Info(Running, count)] && shuttingDown == old(shuttingDown)
      ensures p.worker == old(p.worker)
      ensures id in table && table == old(table)[id := |old(infos)|] && infos == old(infos) + [Info(Running, count)]
    {
      var n := |infos|;
      LaunchSteps(p, n, maxRetry);
      MatchesLaunched(p.attempts, infos, table);
      Log([Submit(n), Mark(n), Register(n)]);
      SaveTask(id, Info(Running, count));
      table := table[id := n];
      infos := infos + [Info(Running, count)];
    }

    /** run_task: a request for a task that is stored already does nothing. */
    method RunTask(id: Id) returns (o: Outcome)
      requires Valid()
      modifies this
      ensures Valid() && old(history) <= history
      ensures o == if old(shuttingDown) then Raised else Done
      ensures shuttingDown == old(shuttingDown)
      ensures store == if old(shuttingDown) || id in old(store) then old(store) else old(store)[id := Info(Running, -1)]
      ensures store == old(store) || |infos| == |old(infos)| + 1
    {
      if shuttingDown {
        return Raised;
      }
      if id !in store {
        Log([Request(id)]);
        SaveTask(id, Info(Pending, -1));
        Launch(id, -1);
      }
      o := Done;
    }

    /** The two actions of a completion callback. */
    ghost method LogFinish(n: nat, ok: bool)
      requires Recorded() && n < |p.attempts| && p.attempts[n].phase == Registered && p.attempts[n].id in p.table
      modifies this`history, this`p
      ensures Recorded() && old(history) <= history && p.down == old(p.down) && p.worker == old(p.worker)
      ensures var t := old(p.attempts[n]);
              var count := t.count + (if ok then 0 else 1);
              && p.store == old(p.store)[t.id := Info(if ok then Completed else Failed, count)]
              && p.table == old(p.table) - {t.id}
              && p.attempts == old(p.attempts)[n := Attempt(t.id, count, Finished(ok))]
    {
      FinishSteps(p, n, ok, maxRetry);
      Log([Pop(n), Settle(n, ok)]);
    }

    /** done_callback, for the attempt registered under id. */
    method DoneCallback(id: Id, ok: bool)
      requires Valid()
      modifies this
      ensures Valid() && old(history) <= history
      ensures table == old(table) - {id}
      ensures id !in old(table) ==> store == old(store)
      ensures id in old(table) ==>
                var count := old(infos[table[id]].count);
                store == old(store)[id := if ok then Info(Completed, count) else Info(Failed, count + 1)]
    {
      if id !in table {
        return;
      }
      var n := table[id];
      table := table - {id};
      MatchesFinished(p.attempts, infos, old(table), n, ok);
      LogFinish(n, ok);
      var info := infos[n];
      infos := infos[n := if ok then Info(Completed, info.count) else Info(Failed, info.count + 1)];
      SaveTask(id, infos[n]);
    }

    /** get_tasks: the stored tasks, by state and by whether they may be retried. */
    method GetTasks(state: Option<Status>, retriable: Option<bool>) returns (r: map<Id, Info>)
      ensures forall id :: id in r <==>
                && id in store
                && (retriable == Some(true) ==> store[id].status == Failed && store[id].count < maxRetry)
                && (retriable == Some(false) ==> store[id].count >= maxRetry)
                && (state.Some? ==> store[id].status == state.value)
      ensures forall id | id in r :: r[id] == store[id]
    {
      r := store;
      if retriable.Some? {
        if retriable.value {
          r := map id | id in r && r[id].count < maxRetry && r[id].status == Failed :: r[id];
        } else {
          r := map id | id in r && r[id].count >= maxRetry :: r[id];
        }
      }
      if state.Some? {
        r := map id | id in r && r[id].status == state.value :: r[id];
      }
    }

    /** The worker's step that retries a task. */
    ghost method LogRetry(id: Id)
      requires Recorded() && !p.down && p.worker.Retrying? && id in p.worker.todo && id in p.store
      modifies this`history, this`p
      ensures Recorded() && old(history) <= history
      ensures p == Begin(old(p), id, old(p.store[id].count)).(worker := Retrying(old(p.worker.todo) - {id}))
    {
      assert Run(p, [Work(id)], maxRetry) == WorkerStep(p, id, maxRetry);
      Log([Work(id)]);
    }

    /** run_task_ext for a task that the worker retries. */
    method RetryTask(id: Id)
      requires Valid() && !shuttingDown && p.worker.Retrying? && id in p.worker.todo && id in store
      modifies this
      ensures Valid() && old(history) <= history && !shuttingDown
      ensures store == old(store)[id := Info(Running, old(store)[id].count)]
      ensures p.worker == Retrying(old(p.worker.todo) - {id})
    {
      var count := store[id].count;
      LogRetry(id);
      SaveTask(id, Info(Pending, count));
      Launch(id, count);
    }

    /** The worker turns to its next list. */
    ghost method NextList()
      requires Valid() && !shuttingDown && (p.worker.Idle? || p.worker.todo == {})
      modifies this`history, this`p
      ensures Valid() && old(history) <= history
      ensures p == WorkerStep(old(p), "", maxRetry)
    {
      assert Run(p, [Work("")], maxRetry) == WorkerStep(p, "", maxRetry);
      WorkerShape(p, "", maxRetry);
      Log([Work("")]);
    }

    /** retry_all's list. */
    method ListRetriable() returns (todo: set<Id>)
      requires Valid() && p.worker.Idle? && !shuttingDown
      modifies this`history, this`p
      ensures Valid() && old(history) <= history && p.worker == Retrying(todo)
      ensures todo == set id | id in store && store[id].status == Failed && store[id].count < maxRetry
    {
      var retriable := GetTasks(None, Some(true));
      todo := retriable.Keys;
      NextList();
      assert p.worker.todo == todo;
    }

    /** retry_all: every task that may be retried is running again, the others are untouched. */
    method RetryAll()
      requires Valid() && p.worker.Idle? && !shuttingDown
      modifies this
      ensures Valid() && old(history) <= history && !shuttingDown
      ensures p.worker == Retrying({})
      ensures store == Retried(old(store), maxRetry)
    {
      var todo := ListRetriable();
      ghost var listed, was := todo, store;
      while todo != {}
        invariant Valid() && old(history) <= history && !shuttingDown
        invariant p.worker == Retrying(todo) && todo <= listed && listed <= was.Keys
        invariant store == Relaunched(was, listed - todo)
        decreases |todo|
      {
        var id :| id in todo;
        RetryTask(id);
        RelaunchedNext(was, listed, todo, id);
        todo := todo - {id};
      }
      RelaunchedAll(was, listed, maxRetry);
    }

    /** The worker removes one listed task. */
    method DropTask(id: Id)
      requires Valid() && !shuttingDown && id in store
      requires (p.worker.DroppingSpent? || p.worker.DroppingDone?) && id in p.worker.todo
      modifies this
      ensures Valid() && old(history) <= history && !shuttingDown
      ensures store == old(store) - {id}
      ensures p.worker == old(p.worker).(todo := old(p.worker.todo) - {id})
    {
      assert Run(p, [Work(id)], maxRetry) == WorkerStep(p, id, maxRetry);
      Log([Work(id)]);
      var o := RemoveTask(id);
    }

    /** One of the worker's two removal loops. */
    method DropListed(listed: set<Id>)
      requires Valid() && !shuttingDown && listed <= store.Keys
      requires (p.worker.DroppingSpent? || p.worker.DroppingDone?) && p.worker.todo == listed
      modifies this
      ensures Valid() && old(history) <= history && !shuttingDown
      ensures store == old(store) - listed
      ensures p.worker == old(p.worker).(todo := {})
    {
      var todo := listed;
      ghost var was := store;
      while todo != {}
        invariant Valid() && old(history) <= history && !shuttingDown
        invariant p.worker == old(p.worker).(todo := todo) && todo <= listed
        invariant store == was - (listed - todo)
        decreases |todo|
      {
        var id :| id in todo;
        assert id in store;
        DropTask(id);
        assert was - (listed - todo) - {id} == was - (listed - (todo - {id}));
        todo := todo - {id};
      }
      assert listed - {} == listed;
    }

    /** retry_worker's first removal: the tasks that are out of retries. */
    method DropSpent()
      requires Valid() && p.worker == Retrying({}) && !shuttingDown
      modifies this
      ensures Valid() && old(history) <= history && !shuttingDown && p.worker == DroppingSpent({})
      ensures store == old(store) - SpentIds(old(store), maxRetry)
    {
      var spent := GetTasks(None, Some(false));
      NextList();
      assert p.worker.todo == spent.Keys == SpentIds(store, maxRetry);
      DropListed(spent.Keys);
    }

    /** retry_worker's second removal: the completed tasks. */
    method DropCompleted()
      requires Valid() && p.worker == DroppingSpent({}) && !shuttingDown
      modifies this
      ensures Valid() && old(history) <= history && !shuttingDown && p.worker.Idle?
      ensures store == old(store) - CompletedIds(old(store))
    {
      var done := GetTasks(Some(Completed), None);
      NextList();
      assert p.worker.todo == done.Keys == CompletedIds(store);
      DropListed(done.Keys);
      NextList();
    }

    /** One round of retry_worker: what may be retried runs again, what is spent or completed is removed. */
    method WorkerRound()
      requires Valid() && p.worker.Idle? && !shuttingDown
      modifies this
      ensures Valid() && old(history) <= history && !shuttingDown && p.worker.Idle?
      ensures store == AfterRound(old(store), maxRetry)
    {
      RetryAll();
      DropSpent();
      DropCompleted();
      RoundIs(old(store), maxRetry);
    }

    /** start()'s loop over the tasks that are stored as running. */
    method RecoverRunning()
      modifies this`store
      ensures store == map id | id in old(store) :: Recovered(old(store)[id])
      ensures store.Keys == old(store).Keys
      ensures forall id, c | id in store && c > 0 && old(store)[id] == Info(Running, c) ::
                store[id] == Info(Failed, c - 1)
      ensures forall id, c | id in store && c <= 0 && old(store)[id] == Info(Running, c) :: store[id] == Info(Failed, c)
      ensures forall id | id in store && old(store)[id].status != Running :: store[id] == old(store)[id]
    {
      var running := GetTasks(Some(Running), None);
      var todo := running.Keys;
      while todo != {}
        invariant todo <= running.Keys <= old(store).Keys == store.Keys
        invariant forall id | id in store ::
                    store[id] == if id in todo then old(store)[id] else Recovered(old(store)[id])
        decreases |todo|
      {
        var id :| id in todo;
        var info := store[id];
        SaveTask(id, Info(Failed, if info.count > 0 then info.count - 1 else info.count));
        todo := todo - {id};
      }
    }

    /** The process ends and a new one recovers: start(). Whatever was running failed, and gets one retry back. */
    method Start()
      requires Valid()
      modifies this
      ensures Valid() && old(history) <= history && !shuttingDown && p.worker.Idle?
      ensures store == map id | id in old(store) :: Recovered(old(store)[id])
      ensures store.Keys == old(store).Keys
      ensures forall id, c | id in store && c > 0 && old(store)[id] == Info(Running, c) ::
                store[id] == Info(Failed, c - 1)
      ensures forall id, c | id in store && c <= 0 && old(store)[id] == Info(Running, c) :: store[id] == Info(Failed, c)
      ensures forall id | id in store && old(store)[id].status != Running :: store[id] == old(store)[id]
    {
      table, infos, shuttingDown := map[], [], false;
      RecoverRunning();
      assert Run(p, [Restart], maxRetry) == Step(p, Restart, maxRetry);
      Log([Restart]);
    }

    /** shutdown marks a task that is still running as failed, with the retry_count its info object has. */
    method MarkAsFailed(id: Id)
      requires Valid() && shuttingDown && id in table
      modifies this
      ensures Valid() && old(history) <= history && shuttingDown && table == old(table)
      ensures store == old(store)[id := Info(Failed, old(infos[table[id]].count))]
      ensures Counts() == old(Counts())
    {
      var n := table[id];
      DoomSteps(p, n, maxRetry);
      Log([Doom(n), MarkDoomed(n)]);
      infos := infos[n := infos[n].(status := Failed)];
      SaveTask(id, infos[n]);
    }

    /** The retry counts of the attempts in the table. */
    ghost function Counts(): map<Id, int>
      requires Valid()
      reads this
    {
      map id | id in table :: infos[table[id]].count
    }

    /** shutdown: no task starts any more, and those that still run at the timeout are marked as failed. */
    method Shutdown(running: set<Id>)
      requires Valid() && running <= table.Keys
      modifies this
      ensures Valid() && old(history) <= history && shuttingDown && table == old(table)
      ensures store == WithFailed(old(store), old(Counts()), running)
    {
      BeginShutdown();
      ghost var counts, was := Counts(), store;
      var todo := running;
      while todo != {}
        invariant Valid() && old(history) <= history && shuttingDown && table == old(table)
        invariant todo <= running <= table.Keys && Counts() == counts
        invariant store == WithFailed(was, counts, running - todo)
        decreases |todo|
      {
        var id :| id in todo;
        MarkAsFailed(id);
        WithFailedNext(was, counts, running, todo, id);
        todo := todo - {id};
      }
      assert running - {} == running;
    }

    method BeginShutdown()
      requires Valid()
      modifies this`shuttingDown, this`history, this`p
      ensures Valid() && old(history) <= history && shuttingDown
    {
      assert Run(p, [TaskProtocol.Shutdown], maxRetry) == Step(p, TaskProtocol.Shutdown, maxRetry);
      Log([TaskProtocol.Shutdown]);
      shuttingDown := true;
    }
  }

  /** These tasks are marked as failed. */
  function WithFailed(store: map<Id, Info>, counts: map<Id, int>, ids: set<Id>): map<Id, Info>
    requires ids <= counts.Keys
  {
    store + map id | id in ids :: Info(Failed, counts[id])
  }

  lemma WithFailedNext(store: map<Id, Info>, counts: map<Id, int>, running: set<Id>, todo: set<Id>, id: Id)
    requires id in todo && todo <= running <= counts.Keys
    ensures WithFailed(store, counts, running - (todo - {id})) ==
              WithFailed(store, counts, running - todo)[id := Info(Failed, counts[id])]
  {
  }

  function SpentIds(store: map<Id, Info>, max: nat): set<Id> {
    set id | id in store && store[id].count >= max
  }

  function CompletedIds(store: map<Id, Info>): set<Id> {
    set id | id in store && store[id].status == Completed
  }

  /** What shutdown's listing and marking of a running attempt come to. */
  lemma DoomSteps(s: State, n: nat, max: nat)
    requires n < |s.attempts| && s.attempts[n].phase == Registered && s.down
    ensures var s' := Run(s, [Doom(n), MarkDoomed(n)], max);
            && s' == s.(doomed := s.doomed + {n},
                store := s.store[s.attempts[n].id := Info(Failed, s.attempts[n].count)])
  {
    var s1 := Step(s, Doom(n), max);
    assert Run(s1, [MarkDoomed(n)], max) == Step(s1, MarkDoomed(n), max);
    assert [Doom(n), MarkDoomed(n)][1..] == [MarkDoomed(n)];
  }

  /** The store after a round of the retry worker. */
  function AfterRound(store: map<Id, Info>, max: nat): map<Id, Info> {
    map id | id in store && store[id].count < max && store[id].status != Completed ::
      if store[id].status == Failed then Info(Running, store[id].count) else store[id]
  }

  lemma RoundIs(was: map<Id, Info>, max: nat)
    ensures var kept := Retried(was, max) - SpentIds(Retried(was, max), max);
            kept - CompletedIds(kept) == AfterRound(was, max)
  {
  }

  /** These tasks are running again. */
  function Relaunched(store: map<Id, Info>, ids: set<Id>): map<Id, Info> {
    map id | id in store :: if id in ids then Info(Running, store[id].count) else store[id]
  }

  lemma RelaunchedNext(store: map<Id, Info>, listed: set<Id>, todo: set<Id>, id: Id)
    requires id in store && id in todo && todo <= listed
    ensures Relaunched(store, listed - (todo - {id})) ==
              Relaunched(store, listed - todo)[id := Info(Running, Relaunched(store, listed - todo)[id].count)]
  {
  }

  lemma RelaunchedAll(store: map<Id, Info>, listed: set<Id>, max: nat)
    requires listed == set id | id in store && store[id].status == Failed && store[id].count < max
    ensures Relaunched(store, listed - {}) == Retried(store, max)
  {
  }

  function Retried(store: map<Id, Info>, max: nat): map<Id, Info> {
    map id | id in store ::
        if store[id].status == Failed && store[id].count < max then Info(Running, store[id].count) else store[id]
  }
}
