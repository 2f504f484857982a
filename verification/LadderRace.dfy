/** The ladder race as a step machine: each rung sleeps out its offset, dials, and is polled when it
    completes. The runtime is taken to be prompt (time passes only when nothing is ready) and may poll
    whatever is ready in any order. */
module LadderRace {
  import opened Wrappers
  import opened Ladder

  datatype Phase = Asleep | Dialing(since: nat) | Done(at: nat)

  datatype Race = Race(clock: nat, phases: seq<Phase>, won: Option<nat>)

  datatype Step = Start(i: nat) | Finish(i: nat) | Tick

  predicate Over(s: Race) {
    s.won.Some? || forall i | 0 <= i < |s.phases| :: s.phases[i].Done?
  }

  predicate Ready<T>(dials: seq<Dial<T>>, s: Race, i: nat)
    requires |s.phases| == |dials| && i < |dials|
  {
    match s.phases[i]
    case Asleep => Offset(i) <= s.clock
    case Dialing(since) => !dials[i].Hangs? && since + dials[i].after <= s.clock
    case Done(_) => false
  }

  predicate Enabled<T>(dials: seq<Dial<T>>, s: Race, step: Step)
    requires |s.phases| == |dials|
  {
    && !Over(s)
    && match step
       case Start(i) => i < |dials| && s.phases[i].Asleep? && Ready(dials, s, i)
       case Finish(i) => i < |dials| && s.phases[i].Dialing? && Ready(dials, s, i)
       case Tick => forall i | 0 <= i < |dials| :: !Ready(dials, s, i)
  }

  function Apply<T>(dials: seq<Dial<T>>, s: Race, step: Step): Race
    requires |s.phases| == |dials| && Enabled(dials, s, step)
  {
    match step
    case Start(i) => s.(phases := s.phases[i := Dialing(s.clock)])
    case Finish(i) =>
      s.(phases := s.phases[i := Done(s.clock)], won := if dials[i].Connects? then Some(i) else None)
    case Tick => s.(clock := s.clock + 1)
  }

  /** The state after `steps`, if each of them was possible. */
  function Run<T>(dials: seq<Dial<T>>, steps: seq<Step>): (r: Option<Race>)
    ensures r.Some? ==> |r.value.phases| == |dials|
  {
    if steps == [] then Some(Race(0, seq(|dials|, _ => Asleep), None))
    else
      match Run(dials, steps[..|steps| - 1])
      case None => None
      case Some(s) =>
        if Enabled(dials, s, steps[|steps| - 1]) then Some(Apply(dials, s, steps[|steps| - 1])) else None
  }

  // ---- What every step keeps ----

  ghost predicate OnTime<T>(dials: seq<Dial<T>>, s: Race, i: nat)
    requires |s.phases| == |dials| && i < |dials|
  {
    match s.phases[i]
    case Asleep => s.clock <= Offset(i)
    case Dialing(since) => since == Offset(i) <= s.clock && (dials[i].Hangs? || s.clock <= Due(dials, i))
    case Done(at) =>
      !dials[i].Hangs? && at == Due(dials, i) <= s.clock && (dials[i].Connects? ==> s.won == Some(i))
  }

  /** No rung starts or completes late, and the clock stops with the last completion. */
  ghost predicate Inv<T>(dials: seq<Dial<T>>, s: Race) {
    && |s.phases| == |dials|
    && (forall i | 0 <= i < |dials| :: OnTime(dials, s, i))
    && (s.won.Some? ==> s.won.value < |dials| && dials[s.won.value].Connects? && s.phases[s.won.value] == Done(s.clock))
    && (dials == [] ==> s.clock == 0)
    && ((forall i | 0 <= i < |dials| :: s.phases[i].Done?) && |dials| > 0 ==>
          exists i | 0 <= i < |dials| :: s.phases[i] == Done(s.clock))
  }

  lemma StepKeepsInv<T>(dials: seq<Dial<T>>, s: Race, step: Step)
    requires Inv(dials, s) && Enabled(dials, s, step)
    ensures Inv(dials, Apply(dials, s, step))
  {
    var t := Apply(dials, s, step);
    forall j | 0 <= j < |dials|
      ensures OnTime(dials, t, j)
    {
      assert OnTime(dials, s, j);
      if step.Tick? {
        assert !Ready(dials, s, j);
      }
    }
    match step
    case Start(i) => assert t.phases[i] == Dialing(t.clock);
    case Finish(i) => assert t.phases[i] == Done(t.clock);
    case Tick =>
      var i :| 0 <= i < |s.phases| && !s.phases[i].Done?;
      assert !t.phases[i].Done?;
  }

  lemma {:induction false} RunKeepsInv<T>(dials: seq<Dial<T>>, steps: seq<Step>)
    requires Run(dials, steps).Some?
    ensures Inv(dials, Run(dials, steps).value)
  {
    if steps != [] {
      RunKeepsInv(dials, steps[..|steps| - 1]);
      StepKeepsInv(dials, Run(dials, steps[..|steps| - 1]).value, steps[|steps| - 1]);
    } else if |dials| > 0 {
      assert Run(dials, steps).value.phases[0] == Asleep;
    }
  }

  // ---- How the race ends ----

  function EndingOf<T>(dials: seq<Dial<T>>, s: Race): Ending<T>
    requires s.won.Some? ==> s.won.value < |dials| && dials[s.won.value].Connects?
  {
    match s.won
    case Some(i) => Connected(i, dials[i].conn, s.clock)
    case None => Exhausted(s.clock)
  }

  /** In every run that is over the winner's completion time is minimal, or all failed and the clock
      shows the last failure; and no rung was started whose offset lies after that. */
  lemma EveryRunEndsRight<T>(dials: seq<Dial<T>>, steps: seq<Step>)
    requires Run(dials, steps).Some? && Over(Run(dials, steps).value)
    ensures var s := Run(dials, steps).value;
            && Inv(dials, s) && IsEnding(dials, EndingOf(dials, s))
            && forall i | 0 <= i < |dials| && !s.phases[i].Asleep? :: Offset(i) <= s.clock
  {
    RunKeepsInv(dials, steps);
    var s := Run(dials, steps).value;
    forall j | 0 <= j < |dials|
      ensures !s.phases[j].Asleep? ==> Offset(j) <= s.clock
      ensures s.won.Some? && dials[j].Connects? ==> s.clock <= Due(dials, j)
      ensures s.won.None? ==> dials[j].Fails? && Due(dials, j) <= s.clock
    {
      assert OnTime(dials, s, j);
    }
    if s.won.Some? {
      assert OnTime(dials, s, s.won.value);
    } else if |dials| > 0 {
      var i :| 0 <= i < |dials| && s.phases[i] == Done(s.clock);
      assert OnTime(dials, s, i);
    }
  }

  /** Until it is over some step is possible. */
  lemma RaceIsNeverBlocked<T>(dials: seq<Dial<T>>, s: Race)
    requires |s.phases| == |dials| && !Over(s)
    ensures exists step :: Enabled(dials, s, step)
  {
    if i: nat :| i < |dials| && Ready(dials, s, i) {
      assert Enabled(dials, s, Start(i)) || Enabled(dials, s, Finish(i));
    } else {
      assert Enabled(dials, s, Tick);
    }
  }

  /** Starts and completions so far. */
  function Progress(phases: seq<Phase>): (n: nat)
    ensures n <= 2 * |phases|
  {
    if phases == [] then 0
    else Weight(phases[0]) + Progress(phases[1..])
  }

  function Weight(p: Phase): nat {
    match p case Asleep => 0 case Dialing(_) => 1 case Done(_) => 2
  }

  lemma {:induction false} ProgressUpdate(phases: seq<Phase>, i: nat, p: Phase)
    requires i < |phases|
    ensures Progress(phases[i := p]) == Progress(phases) - Weight(phases[i]) + Weight(p)
  {
    if i > 0 {
      ProgressUpdate(phases[1..], i - 1, p);
      assert phases[i := p][1..] == phases[1..][i - 1 := p];
    } else {
      assert phases[i := p][1..] == phases[1..];
    }
  }

  lemma {:induction false} NothingYet(n: nat)
    ensures Progress(seq(n, _ => Asleep)) == 0
  {
    if n > 0 {
      NothingYet(n - 1);
      assert seq(n, _ => Asleep)[1..] == seq(n - 1, _ => Asleep);
    }
  }

  lemma {:induction false} StepsAreCounted<T>(dials: seq<Dial<T>>, steps: seq<Step>)
    requires Run(dials, steps).Some?
    ensures var s := Run(dials, steps).value; |steps| == s.clock + Progress(s.phases)
  {
    if steps == [] {
      NothingYet(|dials|);
    } else {
      StepsAreCounted(dials, steps[..|steps| - 1]);
      var s, step := Run(dials, steps[..|steps| - 1]).value, steps[|steps| - 1];
      match step
      case Start(i) => ProgressUpdate(s.phases, i, Dialing(s.clock));
      case Finish(i) => ProgressUpdate(s.phases, i, Done(s.clock));
      case Tick =>
    }
  }

  /** Given a rung that connects by `deadline`, or that all fail by then, the clock never passes the
      deadline and no run is longer than `deadline` ticks and two steps per rung: every race ends. */
  lemma EveryRaceEnds<T>(dials: seq<Dial<T>>, steps: seq<Step>, deadline: nat)
    requires Run(dials, steps).Some?
    requires (exists i :: 0 <= i < |dials| && dials[i].Connects? && Due(dials, i) <= deadline)
          || (forall i | 0 <= i < |dials| :: dials[i].Fails? && Due(dials, i) <= deadline)
    ensures Run(dials, steps).value.clock <= deadline
    ensures |steps| <= deadline + 2 * |dials|
  {
    RunKeepsInv(dials, steps);
    StepsAreCounted(dials, steps);
    var s := Run(dials, steps).value;
    forall j | 0 <= j < |dials|
      ensures dials[j].Connects? || !s.phases[j].Done? ==> dials[j].Hangs? || s.clock <= Due(dials, j)
      ensures s.phases[j].Done? ==> !dials[j].Hangs? && s.phases[j].at == Due(dials, j)
    {
      assert OnTime(dials, s, j);
      if s.won.Some? {
        assert OnTime(dials, s, s.won.value);
      }
    }
  }
}
