/** Infinite runs of the task manager. In every one that is fair to the attempts and to the worker, the store
    empties and stays empty. */
module TaskFairRuns {
  import opened TaskProtocol
  import opened TaskBounds
  import opened TaskLiveness

  /** The states of a run, and its actions: action t leads from state t to state t + 1. */
  type States = nat -> State
  type Actions = nat -> Action

  ghost predicate Goes(states: States, run: Actions, t: nat, max: nat) {
    Internal(run(t)) && states(t + 1) == Step(states(t), run(t), max)
  }

  /** Nothing is submitted, shut down or restarted. */
  ghost predicate Runs(states: States, run: Actions, max: nat) {
    forall t: nat :: Goes(states, run, t, max)
  }

  ghost predicate MovesLater(states: States, run: Actions, t: nat, n: nat) {
    exists u: nat :: t <= u && MovesOn(states(u), run(u), n)
  }

  ghost predicate WorksLater(states: States, run: Actions, t: nat) {
    exists u: nat :: t <= u && WorksOn(states(u), run(u))
  }

  /** Every live attempt makes its next move at some time, with either
      outcome; and the worker keeps taking steps. */
  ghost predicate Fair(states: States, run: Actions, max: nat) {
    && Runs(states, run, max)
    && (forall t: nat, n: nat {:trigger MovesLater(states, run, t, n)} | states(t).LiveAt(n) ::
        MovesLater(states, run, t, n))
    && (forall t: nat :: WorksLater(states, run, t))
  }

  /** What holds of every state of such a run. */
  ghost predicate Sound(s: State, max: nat) {
    Inv(s, max) && !s.down && NoOrphans(s)
  }

  lemma SoundStep(s: State, a: Action, max: nat)
    requires Sound(s, max) && Internal(a)
    ensures Sound(Step(s, a, max), max)
  {
    InternalRun(s, [a], max);
    assert Run(s, [a], max) == Step(s, a, max);
    StepKeepsInv(s, a, max);
  }

  lemma Next(states: States, run: Actions, t: nat, max: nat)
    requires Runs(states, run, max) && Sound(states(t), max)
    ensures Sound(states(t + 1), max) && Cost(states(t + 1), max) <= Cost(states(t), max)
    ensures Cost(states(t + 1), max) == Cost(states(t), max) ==>
              states(t + 1).store == states(t).store && states(t + 1).attempts == states(t).attempts
    ensures forall n: nat | MovesOn(states(t), run(t), n) :: Cost(states(t + 1), max) < Cost(states(t), max)
  {
    assert Goes(states, run, t, max);
    SoundStep(states(t), run(t), max);
    InternalCosts(states(t), run(t), max);
    forall n: nat | MovesOn(states(t), run(t), n) ensures Cost(states(t + 1), max) < Cost(states(t), max) {
      NextMoveCosts(states(t), n, run(t) == NextMove(states(t), n, true), max);
    }
  }

  /** The measure never rises, and where it stays the same nothing happened to a task. */
  lemma {:induction false} CostFalls(states: States, run: Actions, t: nat, u: nat, max: nat)
    requires Runs(states, run, max) && Sound(states(t), max) && t <= u
    ensures Sound(states(u), max) && Cost(states(u), max) <= Cost(states(t), max)
    ensures Cost(states(u), max) == Cost(states(t), max) ==>
              states(u).store == states(t).store && states(u).attempts == states(t).attempts
    decreases u - t
  {
    if t < u {
      CostFalls(states, run, t, u - 1, max);
      Next(states, run, u - 1, max);
    }
  }

  /** Nor does a step move the worker away from a task that waits for it. */
  lemma NextNeed(states: States, run: Actions, t: nat, id: Id, max: nat)
    requires Runs(states, run, max) && Sound(states(t), max) && id in states(t).store && AllEnded(states(t).attempts)
    requires states(t + 1).store == states(t).store
    ensures Need(states(t + 1), id, max) <= Need(states(t), id, max)
    ensures WorksOn(states(t), run(t)) ==> Need(states(t + 1), id, max) < Need(states(t), id, max)
  {
    assert Goes(states, run, t, max);
    Ended(states(t), run(t), id, max);
    if WorksOn(states(t), run(t)) {
      WorkerGetsOn(states(t), run(t), id, max);
    }
  }

  lemma {:induction false} NeedFalls(states: States, run: Actions, t: nat, u: nat, id: Id, max: nat)
    requires Runs(states, run, max) && Sound(states(t), max) && t <= u
    requires id in states(t).store && AllEnded(states(t).attempts)
    ensures Sound(states(u), max)
    ensures Cost(states(u), max) == Cost(states(t), max) ==> Need(states(u), id, max) <= Need(states(t), id, max)
    decreases u - t
  {
    CostFalls(states, run, t, u, max);
    if t < u && Cost(states(u), max) == Cost(states(t), max) {
      CostFalls(states, run, t, u - 1, max);
      Next(states, run, u - 1, max);
      NeedFalls(states, run, t, u - 1, id, max);
      NextNeed(states, run, u - 1, id, max);
    }
  }

  lemma MoveAt(states: States, run: Actions, t: nat, w: nat, n: nat, max: nat)
    requires Runs(states, run, max) && Sound(states(t), max) && t <= w && MovesOn(states(w), run(w), n)
    ensures Sound(states(w + 1), max) && Cost(states(w + 1), max) < Cost(states(t), max)
  {
    CostFalls(states, run, t, w, max);
    Next(states, run, w, max);
  }

  /** As long as a task is stored, the measure falls at some time: because an attempt moves on, */
  lemma AttemptGetsOn(states: States, run: Actions, t: nat, n: nat, max: nat) returns (u: nat)
    requires Fair(states, run, max) && Sound(states(t), max) && states(t).LiveAt(n)
    ensures t < u && Sound(states(u), max) && Cost(states(u), max) < Cost(states(t), max)
  {
    var w := SomeMove(states, run, t, n);
    MoveAt(states, run, t, w, n, max);
    u := w + 1;
  }

  lemma SomeMove(states: States, run: Actions, t: nat, n: nat) returns (w: nat)
    requires MovesLater(states, run, t, n)
    ensures t <= w && MovesOn(states(w), run(w), n)
  {
    w :| t <= w && MovesOn(states(w), run(w), n);
  }

  /** or because the worker gets to it. */
  lemma {:induction false} WorkerGetsToIt(states: States, run: Actions, t: nat, id: Id, max: nat) returns (u: nat)
    requires Fair(states, run, max) && Sound(states(t), max) && id in states(t).store && AllEnded(states(t).attempts)
    ensures t < u && Sound(states(u), max) && Cost(states(u), max) < Cost(states(t), max)
    decreases Need(states(t), id, max)
  {
    assert WorksLater(states, run, t);
    var w: nat :| t <= w && WorksOn(states(w), run(w));
    u := w + 1;
    CostFalls(states, run, t, w, max);
    Next(states, run, w, max);
    if Cost(states(u), max) == Cost(states(t), max) {
      NeedFalls(states, run, t, w, id, max);
      NextNeed(states, run, w, id, max);
      u := WorkerGetsToIt(states, run, u, id, max);
    }
  }

  lemma {:induction false} EmptiesFrom(states: States, run: Actions, t: nat, max: nat) returns (u: nat)
    requires Fair(states, run, max) && Sound(states(t), max)
    ensures t <= u && Sound(states(u), max) && states(u).store == map[]
    decreases Cost(states(t), max)
  {
    u := t;
    if states(t).store != map[] {
      if AllEnded(states(t).attempts) {
        var id :| id in states(t).store;
        u := WorkerGetsToIt(states, run, t, id, max);
      } else {
        var n :| 0 <= n < |states(t).attempts| && states(t).attempts[n].Live();
        assert states(t).LiveAt(n);
        u := AttemptGetsOn(states, run, t, n, max);
      }
      u := EmptiesFrom(states, run, u, max);
    }
  }

  lemma {:induction false} EmptyAt(states: States, run: Actions, u: nat, t: nat, max: nat)
    requires Runs(states, run, max)
    requires Sound(states(u), max) && states(u).store == map[] && u <= t
    ensures states(t).store == map[]
    decreases t - u
  {
    if u < t {
      EmptyAt(states, run, u, t - 1, max);
      CostFalls(states, run, u, t - 1, max);
      assert Goes(states, run, t - 1, max);
      StaysEmpty(states(t - 1), [run(t - 1)], max);
      assert Run(states(t - 1), [run(t - 1)], max) == Step(states(t - 1), run(t - 1), max) == states(t - 1 + 1);
    }
  }

  ghost predicate EmptySince(states: States, u: nat) {
    forall t: nat | t >= u :: states(t).store == map[]
  }

  /** In every fair run the store is empty from some time on, however the attempts end. */
  lemma EveryFairRunEmptiesTheStore(states: States, run: Actions, max: nat)
    requires Inv(states(0), max) && !states(0).down && NoOrphans(states(0)) && Fair(states, run, max)
    ensures exists u :: EmptySince(states, u)
  {
    var u := EmptiesFrom(states, run, 0, max);
    forall t: nat | t >= u ensures states(t).store == map[] {
      EmptyAt(states, run, u, t, max);
    }
    assert EmptySince(states, u);
  }

  lemma {:induction false} OrphanAt(states: States, run: Actions, t: nat, id: Id, max: nat)
    requires Runs(states, run, max) && Inv(states(0), max) && Orphan(states(0), id)
    ensures Inv(states(t), max) && Orphan(states(t), id)
  {
    if t > 0 {
      OrphanAt(states, run, t - 1, id, max);
      assert Goes(states, run, t - 1, max);
      StepKeepsInv(states(t - 1), run(t - 1), max);
      OrphanSurvives(states(t - 1), run(t - 1), id, max);
    }
  }

  /** After a crash, every fair run of the next process empties the store if no task was stored as pending; if one
      was, none does. */
  lemma RecoveredRunEmptiesIff(s: State, states: States, run: Actions, max: nat)
    requires Inv(s, max) && states(0) == Step(s, Restart, max) && Fair(states, run, max)
    ensures (exists u :: EmptySince(states, u)) <==> (forall id | id in s.store :: s.store[id].status != Pending)
  {
    RestartRecovers(s, max);
    if forall id | id in s.store :: s.store[id].status != Pending {
      EveryFairRunEmptiesTheStore(states, run, max);
    } else {
      var id :| id in s.store && s.store[id].status == Pending;
      if u :| EmptySince(states, u) {
        OrphanAt(states, run, u, id, max);
      }
    }
  }

  // ---------------------------------------------------------------- fair runs exist

  lemma RoundExists(s: State, max: nat)
    requires Inv(s, max)
    ensures exists round :: FairRound(s, round, max)
  {
    var round := SomeFairRound(s, max);
  }

  ghost function RoundFrom(s: State, max: nat): (round: seq<Action>)
    requires Inv(s, max)
    ensures FairRound(s, round, max) && round != []
  {
    RoundExists(s, max);
    var round :| FairRound(s, round, max);
    round
  }

  /** Where a run of one fair round after the other is: its state, and what is left of the round. */
  datatype Point = Point(s: State, rest: seq<Action>)

  ghost function PointAt(s: State, t: nat, max: nat): (c: Point)
    requires Inv(s, max)
    ensures Inv(c.s, max) && c.rest != [] && AllInternal(c.rest)
  {
    if t == 0 then Point(s, RoundFrom(s, max))
    else
      var c := PointAt(s, t - 1, max);
      StepKeepsInv(c.s, c.rest[0], max);
      var s' := Step(c.s, c.rest[0], max);
      if |c.rest| == 1 then Point(s', RoundFrom(s', max)) else Point(s', c.rest[1..])
  }

  /** An attempt stays live until it makes its last move. */
  lemma LiveUntilMoved(s: State, a: Action, n: nat, max: nat)
    requires s.LiveAt(n) && Internal(a) && !MovesOn(s, a, n)
    ensures Step(s, a, max).LiveAt(n)
  {
    if a.Work? {
      WorkerShape(s, a.id, max);
    }
  }

  lemma NextPoint(s: State, t: nat, max: nat)
    requires Inv(s, max) && |PointAt(s, t, max).rest| > 1
    ensures var c := PointAt(s, t, max);
            PointAt(s, t + 1, max) == Point(Step(c.s, c.rest[0], max), c.rest[1..])
  {
  }

  lemma MoveIsLeft(s: State, schedule: seq<Action>, n: nat, max: nat)
    requires GetsAMove(s, schedule, n, max) && !MovesOn(s, schedule[0], n)
    ensures |schedule| > 1 && GetsAMove(Step(s, schedule[0], max), schedule[1..], n, max)
  {
  }

  lemma {:induction false} RestMoves(s: State, t: nat, n: nat, max: nat) returns (u: nat)
    requires Inv(s, max)
    requires var c := PointAt(s, t, max); GetsAMove(c.s, c.rest, n, max)
    ensures t <= u && MovesOn(PointAt(s, u, max).s, PointAt(s, u, max).rest[0], n)
    decreases |PointAt(s, t, max).rest|
  {
    var c := PointAt(s, t, max);
    if MovesOn(c.s, c.rest[0], n) {
      u := t;
    } else {
      MoveIsLeft(c.s, c.rest, n, max);
      NextPoint(s, t, max);
      u := RestMoves(s, t + 1, n, max);
    }
  }

  lemma {:induction false} LiveMoves(s: State, t: nat, n: nat, max: nat) returns (u: nat)
    requires Inv(s, max) && PointAt(s, t, max).s.LiveAt(n)
    ensures t <= u && MovesOn(PointAt(s, u, max).s, PointAt(s, u, max).rest[0], n)
    decreases |PointAt(s, t, max).rest|
  {
    var c := PointAt(s, t, max);
    if MovesOn(c.s, c.rest[0], n) {
      u := t;
    } else {
      LiveUntilMoved(c.s, c.rest[0], n, max);
      var next := PointAt(s, t + 1, max);
      assert next.s == Step(c.s, c.rest[0], max);
      if |c.rest| == 1 {
        u := RestMoves(s, t + 1, n, max);
      } else {
        u := LiveMoves(s, t + 1, n, max);
      }
    }
  }

  lemma {:induction false} RestWorks(s: State, t: nat, max: nat) returns (u: nat)
    requires Inv(s, max)
    requires var c := PointAt(s, t, max); WorkerSteps(c.s, c.rest, max) > 0
    ensures t <= u && WorksOn(PointAt(s, u, max).s, PointAt(s, u, max).rest[0])
    decreases |PointAt(s, t, max).rest|
  {
    var c := PointAt(s, t, max);
    if WorksOn(c.s, c.rest[0]) {
      u := t;
    } else {
      assert WorkerSteps(Step(c.s, c.rest[0], max), c.rest[1..], max) > 0;
      NextPoint(s, t, max);
      u := RestWorks(s, t + 1, max);
    }
  }

  lemma {:induction false} WorkerWorks(s: State, t: nat, max: nat) returns (u: nat)
    requires Inv(s, max)
    ensures t <= u && WorksOn(PointAt(s, u, max).s, PointAt(s, u, max).rest[0])
    decreases |PointAt(s, t, max).rest|
  {
    if |PointAt(s, t, max).rest| == 1 {
      u := RestWorks(s, t + 1, max);
    } else {
      u := WorkerWorks(s, t + 1, max);
    }
  }

  /** From every state of the protocol there is a fair infinite run. */
  lemma SomeFairRun(s: State, max: nat) returns (states: States, run: Actions)
    requires Inv(s, max)
    ensures states(0) == s && Fair(states, run, max)
  {
    states := (t: nat) => PointAt(s, t, max).s;
    run := (t: nat) => PointAt(s, t, max).rest[0];
    forall t: nat ensures Goes(states, run, t, max) {
      var c, next := PointAt(s, t, max), PointAt(s, t + 1, max);
      assert c.rest[0] in c.rest;
    }
    forall t: nat, n: nat | states(t).LiveAt(n) ensures MovesLater(states, run, t, n) {
      var u := LiveMoves(s, t, n, max);
      assert MovesOn(states(u), run(u), n);
    }
    forall t: nat ensures WorksLater(states, run, t) {
      var u := WorkerWorks(s, t, max);
      assert WorksOn(states(u), run(u));
    }
  }
}
