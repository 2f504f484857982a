/** The shared connection of the local-forward proxy: any number of tasks go through one lock, which is
    held across the check of the cached connection and across a redial. Connections are numbered in
    the order they were dialed and may die at any moment. */
module ForwardConn {
  import opened Wrappers

  type TaskId = nat
  type ConnId = nat

  datatype Task = Waiting | Holding | Dialing | Returned(conn: ConnId) | Failed

  datatype State = State(cached: Option<ConnId>, holder: Option<TaskId>, tasks: map<TaskId, Task>,
                         dialed: nat, dead: set<ConnId>)

  datatype Step =
    | Spawn(t: TaskId)      // a local connection was accepted
    | Acquire(t: TaskId)    // the lock is granted, in any order
    | Reuse(t: TaskId)      // the cached connection is open
    | Redial(t: TaskId)     // there is none, or it is closed
    | DialOk(t: TaskId)
    | DialFail(t: TaskId)
    | Die(c: ConnId)

  function Initial(): State {
    State(None, None, map[], 0, {})
  }

  predicate NeedsDial(s: State) {
    s.cached.None? || s.cached.value in s.dead
  }

  predicate Is(s: State, t: TaskId, task: Task) {
    t in s.tasks && s.tasks[t] == task
  }

  predicate Enabled(s: State, step: Step) {
    match step
    case Spawn(t) => t !in s.tasks
    case Acquire(t) => Is(s, t, Waiting) && s.holder.None?
    case Reuse(t) => Is(s, t, Holding) && !NeedsDial(s)
    case Redial(t) => Is(s, t, Holding) && NeedsDial(s)
    case DialOk(t) => Is(s, t, Dialing)
    case DialFail(t) => Is(s, t, Dialing)
    case Die(c) => c < s.dialed
  }

  function Apply(s: State, step: Step): State
    requires Enabled(s, step)
  {
    match step
    case Spawn(t) => s.(tasks := s.tasks[t := Waiting])
    case Acquire(t) => s.(tasks := s.tasks[t := Holding], holder := Some(t))
    case Reuse(t) => s.(tasks := s.tasks[t := Returned(s.cached.value)], holder := None)
    case Redial(t) => s.(tasks := s.tasks[t := Dialing])
    case DialOk(t) =>
      s.(tasks := s.tasks[t := Returned(s.dialed)], holder := None,
         cached := Some(s.dialed), dialed := s.dialed + 1)
    case DialFail(t) => s.(tasks := s.tasks[t := Failed], holder := None)
    case Die(c) => s.(dead := s.dead + {c})
  }

  /** The state after `steps`, if each of them was possible. */
  function Run(steps: seq<Step>): Option<State> {
    if steps == [] then Some(Initial())
    else
      match Run(steps[..|steps| - 1])
      case None => None
      case Some(s) => if Enabled(s, steps[|steps| - 1]) then Some(Apply(s, steps[|steps| - 1])) else None
  }

  // ---- The body of one call ----

  function After(s: State, steps: seq<Step>): Option<State>
    decreases |steps|
  {
    if steps == [] then Some(s)
    else if Enabled(s, steps[0]) then After(Apply(s, steps[0]), steps[1..])
    else None
  }

  /** The steps of a call that gets the lock and is not overtaken by a death. */
  function Call(s: State, t: TaskId, dialSucceeds: bool): seq<Step> {
    [Acquire(t)]
    + if NeedsDial(s) then [Redial(t), if dialSucceeds then DialOk(t) else DialFail(t)] else [Reuse(t)]
  }

  /** The mutex-guarded slot all tasks share. */
  class SharedConn {
    var guard: Option<ConnId>

    constructor ()
      ensures guard == None
    {
      guard := None;
    }

    /** `s` is the world at the call and `dead` its closed connections; `dial` is what a dial would
        give: the next connection, or a failure. The call is its steps in the protocol. */
    method ClientForwardConn(ghost s: State, t: TaskId, dead: set<ConnId>, dial: Option<ConnId>)
      returns (conn: Option<ConnId>)
      requires guard == s.cached && dead == s.dead && Is(s, t, Waiting) && s.holder.None?
      requires dial.Some? ==> dial.value == s.dialed
      modifies this
      ensures var end := After(s, Call(s, t, dial.Some?));
              && end.Some? && guard == end.value.cached
              && Is(end.value, t, match conn case Some(c) => Returned(c) case None => Failed)
    {
      var needsDial := guard.None? || guard.value in dead;
      ghost var s1 := Apply(s, Acquire(t));
      assert Call(s, t, dial.Some?)[1..] == if needsDial then [Redial(t), if dial.Some? then DialOk(t) else DialFail(t)] else [Reuse(t)];
      if needsDial {
        ghost var s2 := Apply(s1, Redial(t));
        if dial.None? {
          assert After(s2, [DialFail(t)]) == After(Apply(s2, DialFail(t)), []);
          return None;
        }
        assert After(s2, [DialOk(t)]) == After(Apply(s2, DialOk(t)), []);
        guard := dial;
        conn := dial;
      } else {
        assert After(s1, [Reuse(t)]) == After(Apply(s1, Reuse(t)), []);
        conn := guard;
      }
    }
  }

  // ---- What every interleaving keeps ----

  /** The lock is held by exactly the task between its grant and its return. */
  ghost predicate LockIsExclusive(s: State) {
    forall t: TaskId :: s.holder == Some(t) <==> Is(s, t, Holding) || Is(s, t, Dialing)
  }

  /** The cache holds the last connection dialed; all others, and during a dial that one too, are dead. */
  ghost predicate OnlyTheLastMayLive(s: State) {
    && s.cached == (if s.dialed == 0 then None else Some(s.dialed - 1))
    && (forall c | c in s.dead :: c < s.dialed)
    && (forall c: ConnId | c + 1 < s.dialed :: c in s.dead)
    && (forall t: TaskId, c: ConnId | Is(s, t, Dialing) && c < s.dialed :: c in s.dead)
    && (forall t | t in s.tasks && s.tasks[t].Returned? :: s.tasks[t].conn < s.dialed)
  }

  ghost predicate Inv(s: State) {
    LockIsExclusive(s) && OnlyTheLastMayLive(s)
  }

  lemma StepKeepsInv(s: State, step: Step)
    requires Inv(s) && Enabled(s, step)
    ensures Inv(Apply(s, step))
  {
    var s' := Apply(s, step);
    forall t: TaskId
      ensures s'.holder == Some(t) <==> Is(s', t, Holding) || Is(s', t, Dialing)
    {
      assert s.holder == Some(t) <==> Is(s, t, Holding) || Is(s, t, Dialing);
    }
    forall t: TaskId, c: ConnId | Is(s', t, Dialing) && c < s'.dialed
      ensures c in s'.dead
    {
      assert LockIsExclusive(s') && s'.holder == Some(t);
      if !step.Redial? {
        assert Is(s, t, Dialing);
      }
    }
  }

  lemma {:induction false} RunKeepsInv(steps: seq<Step>)
    requires Run(steps).Some?
    ensures Inv(Run(steps).value)
  {
    if steps != [] {
      RunKeepsInv(steps[..|steps| - 1]);
      StepKeepsInv(Run(steps[..|steps| - 1]).value, steps[|steps| - 1]);
    }
  }

  /** In every interleaving of tasks and deaths, dials never overlap. */
  lemma DialsNeverOverlap(steps: seq<Step>, t: TaskId, u: TaskId)
    requires Run(steps).Some? && Is(Run(steps).value, t, Dialing)
    requires Is(Run(steps).value, u, Dialing) || Is(Run(steps).value, u, Holding)
    ensures t == u
  {
    RunKeepsInv(steps);
    assert LockIsExclusive(Run(steps).value);
  }

  function SuccessfulDials(steps: seq<Step>): nat {
    if steps == [] then 0
    else SuccessfulDials(steps[..|steps| - 1]) + if steps[|steps| - 1].DialOk? then 1 else 0
  }

  lemma {:induction false} DialedCountsDials(steps: seq<Step>)
    requires Run(steps).Some?
    ensures Run(steps).value.dialed == SuccessfulDials(steps)
  {
    if steps != [] {
      DialedCountsDials(steps[..|steps| - 1]);
    }
  }

  lemma {:induction false} EnoughOf(n: nat, xs: set<nat>)
    requires forall c: nat | c < n :: c in xs
    ensures |xs| >= n
  {
    if n > 0 {
      EnoughOf(n - 1, xs - {n - 1});
    }
  }

  /** After n successful dials at least n - 1 of the dialed connections have died, all but the last;
      a dial starts only when every connection dialed before it is dead. */
  lemma RedialsNeedDeaths(steps: seq<Step>)
    requires Run(steps).Some?
    ensures var s := Run(steps).value;
            && |s.dead| >= SuccessfulDials(steps) - 1
            && (forall c | c in s.dead :: c < SuccessfulDials(steps))
            && forall t: TaskId | Enabled(s, Redial(t)) :: |s.dead| == SuccessfulDials(steps)
  {
    RunKeepsInv(steps);
    DialedCountsDials(steps);
    var s := Run(steps).value;
    if s.dialed > 0 {
      EnoughOf(s.dialed - 1, s.dead);
    }
    forall t: TaskId | Enabled(s, Redial(t))
      ensures |s.dead| == s.dialed
    {
      EnoughOf(s.dialed, s.dead);
      AtMost(s.dialed, s.dead);
    }
  }

  lemma {:induction false} AtMost(n: nat, xs: set<nat>)
    requires forall c | c in xs :: c < n
    ensures |xs| <= n
  {
    if n > 0 {
      AtMost(n - 1, xs - {n - 1});
      assert xs <= (xs - {n - 1}) + {n - 1};
    } else {
      assert xs == {};
    }
  }

  /** As long as no connection dies, all tasks share one. */
  lemma NoDeathsOneConnection(steps: seq<Step>)
    requires Run(steps).Some? && Run(steps).value.dead == {}
    ensures var s := Run(steps).value;
            s.dialed <= 1 && forall t | t in s.tasks && s.tasks[t].Returned? :: s.tasks[t].conn == 0
  {
    RunKeepsInv(steps);
    var s := Run(steps).value;
    assert s.dialed > 1 ==> 0 in s.dead;
  }

  /** At step k task t is handed c: the cached connection, open at that moment, or the one it dialed. */
  ghost predicate HandedAt(steps: seq<Step>, k: nat, t: TaskId, c: ConnId) {
    && k < |steps| && Run(steps[..k]).Some?
    && var s := Run(steps[..k]).value;
       || (steps[k] == Reuse(t) && s.cached == Some(c) && c !in s.dead)
       || (steps[k] == DialOk(t) && c == s.dialed && c !in s.dead)
  }

  lemma {:induction false} ReturnedConnectionWasOpen(steps: seq<Step>, t: TaskId) returns (k: nat)
    requires Run(steps).Some? && t in Run(steps).value.tasks && Run(steps).value.tasks[t].Returned?
    ensures HandedAt(steps, k, t, Run(steps).value.tasks[t].conn)
  {
    var m := |steps| - 1;
    var before := steps[..m];
    var s := Run(before).value;
    RunKeepsInv(before);
    if t in s.tasks && s.tasks[t].Returned? {
      k := ReturnedConnectionWasOpen(before, t);
      assert before[..k] == steps[..k];
    } else {
      k := m;
    }
  }

  /** No task waits for ever: while one is unfinished, some task can take its next step. */
  lemma SomeTaskCanProceed(steps: seq<Step>, t: TaskId)
    requires Run(steps).Some? && t in Run(steps).value.tasks
    requires var task := Run(steps).value.tasks[t]; task.Waiting? || task.Holding? || task.Dialing?
    ensures exists u :: var s := Run(steps).value;
              Enabled(s, Acquire(u)) || Enabled(s, Reuse(u)) || Enabled(s, Redial(u)) || Enabled(s, DialOk(u))
  {
    RunKeepsInv(steps);
    var s := Run(steps).value;
    assert s.holder == Some(t) <==> Is(s, t, Holding) || Is(s, t, Dialing);
    match s.holder
    case None => assert Enabled(s, Acquire(t));
    case Some(u) => assert Enabled(s, Reuse(u)) || Enabled(s, Redial(u)) || Enabled(s, DialOk(u));
  }

  // ---- No task is kept for ever ----

  /** The task a step belongs to, unless it is a death or the start of a task. */
  function Actor(step: Step): Option<TaskId> {
    match step
    case Spawn(_) => None
    case Die(_) => None
    case _ => Some(step.t)
  }

  /** How many steps task t has taken. */
  function StepsOf(steps: seq<Step>, t: TaskId): nat {
    if steps == [] then 0
    else StepsOf(steps[..|steps| - 1], t) + if Actor(steps[|steps| - 1]) == Some(t) then 1 else 0
  }

  /** How many more steps a task can take. */
  function StepsLeft(s: State, t: TaskId): nat {
    if t !in s.tasks || s.tasks[t].Waiting? then 3
    else if s.tasks[t].Holding? then 2
    else if s.tasks[t].Dialing? then 1
    else 0
  }

  /** No task takes more than three steps, and none more than two from the grant of the lock on, so while
      some task can proceed the lock is always released and every task is served or waits for one that is. */
  lemma {:induction false} EveryTaskIsShort(steps: seq<Step>, t: TaskId)
    requires Run(steps).Some?
    ensures StepsOf(steps, t) + StepsLeft(Run(steps).value, t) <= 3
  {
    if steps != [] {
      EveryTaskIsShort(steps[..|steps| - 1], t);
    }
  }

  /** All steps that tasks have taken. */
  function OwnSteps(steps: seq<Step>): nat {
    if steps == [] then 0
    else OwnSteps(steps[..|steps| - 1]) + if Actor(steps[|steps| - 1]).Some? then 1 else 0
  }

  function Spawned(steps: seq<Step>): nat {
    if steps == [] then 0
    else Spawned(steps[..|steps| - 1]) + if steps[|steps| - 1].Spawn? then 1 else 0
  }

  /** The steps left to the tasks of a set. */
  ghost function LeftOf(s: State, ts: set<TaskId>): nat
    decreases ts
  {
    if ts == {} then 0
    else
      var t :| t in ts;
      LeftOf(s, ts - {t}) + StepsLeft(s, t)
  }

  lemma {:induction false} LeftSplits(s: State, ts: set<TaskId>, t: TaskId)
    requires t in ts
    ensures LeftOf(s, ts) == LeftOf(s, ts - {t}) + StepsLeft(s, t)
    decreases ts
  {
    var u :| u in ts && LeftOf(s, ts) == LeftOf(s, ts - {u}) + StepsLeft(s, u);
    if u != t {
      LeftSplits(s, ts - {u}, t);
      LeftSplits(s, ts - {t}, u);
      assert ts - {u} - {t} == ts - {t} - {u};
    }
  }

  lemma {:induction false} LeftAgrees(s: State, s': State, ts: set<TaskId>)
    requires forall t | t in ts :: StepsLeft(s, t) == StepsLeft(s', t)
    ensures LeftOf(s, ts) == LeftOf(s', ts)
    decreases ts
  {
    if t :| t in ts {
      LeftSplits(s, ts, t);
      LeftSplits(s', ts, t);
      LeftAgrees(s, s', ts - {t});
    }
  }

  lemma StepLeavesLess(s: State, step: Step)
    requires Enabled(s, step)
    ensures var s' := Apply(s, step);
            LeftOf(s', s'.tasks.Keys) + (if Actor(step).Some? then 1 else 0)
            <= LeftOf(s, s.tasks.Keys) + if step.Spawn? then 3 else 0
  {
    var s' := Apply(s, step);
    if step.Die? {
      LeftAgrees(s, s', s.tasks.Keys);
    } else {
      var t := step.t;
      assert s'.tasks.Keys - {t} == s.tasks.Keys - {t};
      assert t !in s.tasks ==> s.tasks.Keys - {t} == s.tasks.Keys;
      LeftAgrees(s, s', s.tasks.Keys - {t});
      LeftSplits(s', s'.tasks.Keys, t);
      if t in s.tasks {
        LeftSplits(s, s.tasks.Keys, t);
      }
    }
  }

  /** Over any run the tasks take at most three steps each: besides arrivals and deaths every run ends, and
      as `SomeTaskCanProceed` until all tasks have, the lock is always released and every call returns. */
  lemma {:induction false} CallsEnd(steps: seq<Step>)
    requires Run(steps).Some?
    ensures OwnSteps(steps) + LeftOf(Run(steps).value, Run(steps).value.tasks.Keys) <= 3 * Spawned(steps)
  {
    if steps != [] {
      CallsEnd(steps[..|steps| - 1]);
      StepLeavesLess(Run(steps[..|steps| - 1]).value, steps[|steps| - 1]);
    } else {
      assert Initial().tasks.Keys == {};
    }
  }
}
