// Below the deadlock threshold the relay empties itself: the two halves of
// liveness, progress and the falling measure, put together.
module Drain {
  import opened Pipeline
  import opened Retries
  import opened Deadlock

  predicate NoArrivals(steps: seq<Step>) {
    forall i :: 0 <= i < |steps| ==> !steps[i].Arrive?
  }

  // Every entry is sent or dropped.
  ghost predicate AllFinished(s: State) {
    forall p :: At(s, p) != [] ==> Terminal(p)
  }

  lemma NoneLive(s: State)
    ensures Live(s) == 0 <==> AllFinished(s)
  {
    if AllFinished(s) {
      assert forall p :: !Terminal(p) ==> At(s, p) == [];
    }
  }

  // Only an arrival makes an entry live.
  lemma LiveStep(c: Config, s: State, step: Step)
    requires Enabled(c, s, step) && !step.Arrive?
    ensures Live(Apply(c, s, step)) <= Live(s)
  {
    hide Enabled, Apply, MoveOf, Load;
    LoadsAfter(c, s, step, MailQueue);
    LoadsAfter(c, s, step, DispatcherHand);
    LoadsAfter(c, s, step, InFlight);
    LoadsAfter(c, s, step, Deferring);
    LoadsAfter(c, s, step, ErrorQueue);
    LoadsAfter(c, s, step, RetrySleeping);
    LoadsAfter(c, s, step, RetryReady);
    LoadsAfter(c, s, step, FlusherHand);
  }

  // The number of entries that can never get stuck.
  function Threshold(c: Config): nat {
    c.mailCapacity + c.errorCapacity + c.senders + 1
  }

  // A state as runs reach it, with few enough entries.
  ghost predicate Light(c: Config, s: State) {
    Buffered(c) && WithinCapacity(c, s) && Each(s, Ledger(c)) && Live(s) <= Threshold(c)
  }

  lemma LightStep(c: Config, s: State, step: Step)
    requires Light(c, s) && Enabled(c, s, step) && !step.Arrive?
    ensures Light(c, Apply(c, s, step))
  {
    hide Enabled, Apply, Live, WithinCapacity, Each;
    LiveStep(c, s, step);
    CapacityStep(c, s, step);
    LedgerStep(c, s, step);
  }

  lemma {:induction false} LightRun(c: Config, s: State, steps: seq<Step>)
    requires Light(c, s) && Legal(c, s, steps) && NoArrivals(steps)
    ensures Light(c, After(c, s, steps))
    decreases |steps|
  {
    hide Light;
    if steps != [] {
      LightStep(c, s, steps[0]);
      LightRun(c, Apply(c, s, steps[0]), steps[1..]);
    }
  }

  lemma ReachedIsLight(c: Config, now: int, steps: seq<Step>)
    requires Buffered(c) && Legal(c, Start(now), steps)
    requires Live(After(c, Start(now), steps)) <= Threshold(c)
    ensures Light(c, After(c, Start(now), steps))
  {
    CapacityRun(c, Start(now), steps);
    LedgerRun(c, Start(now), steps);
  }

  // The next step that moves an entry, after a wait if the retry task sleeps.
  lemma NextMoves(c: Config, s: State) returns (steps: seq<Step>)
    requires Light(c, s) && Live(s) >= 1
    ensures Legal(c, s, steps) && NoArrivals(steps) && Light(c, After(c, s, steps))
    ensures Measure(c, After(c, s, steps)) < Measure(c, s)
  {
    hide Measure, Ledger, Each;
    if Asleep(s) {
      var tick := Tick(At(s, RetrySleeping)[0].unqueueTime);
      var t := Apply(c, s, tick);
      assert forall p :: At(t, p) == At(s, p);
      MeasureExternal(c, s, tick);
      LightStep(c, s, tick);
      MeasureFalls(c, t, RetryWakes);
      LightStep(c, t, RetryWakes);
      FirstThen(c, t, RetryWakes, []);
      FirstThen(c, s, tick, [RetryWakes]);
      steps := [tick, RetryWakes];
      assert steps == [tick] + [RetryWakes];
    } else {
      NotLoaded(c, s);
      var step := SomeMove(c, s);
      MeasureFalls(c, s, step);
      LightStep(c, s, step);
      FirstThen(c, s, step, []);
      steps := [step];
      assert steps == [step] + [];
    }
  }

  lemma NotLoaded(c: Config, s: State)
    requires Light(c, s)
    ensures !FullyLoaded(c, s)
  {
    if FullyLoaded(c, s) {
      FullyLoadedIsStuck(c, s);
    }
  }

  lemma Empties(c: Config, s: State) returns (steps: seq<Step>)
    requires Light(c, s)
    ensures Legal(c, s, steps) && NoArrivals(steps) && AllFinished(After(c, s, steps))
    decreases Measure(c, s)
  {
    hide Light, Measure, Live;
    NoneLive(s);
    if Live(s) == 0 {
      steps := [];
    } else {
      var first := NextMoves(c, s);
      var rest := Empties(c, After(c, s, first));
      AppendRun(c, s, first, rest);
      steps := first + rest;
    }
  }

  // From every reachable state with at most M + E + S + 1 live entries the
  // goroutines, given time and no new mail, bring every entry to its end.
  lemma DrainsBelowThreshold(c: Config, now: int, steps: seq<Step>) returns (more: seq<Step>)
    requires Buffered(c) && Legal(c, Start(now), steps)
    requires Live(After(c, Start(now), steps)) <= Threshold(c)
    ensures Legal(c, After(c, Start(now), steps), more) && NoArrivals(more)
    ensures AllFinished(After(c, After(c, Start(now), steps), more))
  {
    ReachedIsLight(c, now, steps);
    more := Empties(c, After(c, Start(now), steps));
  }

  // And no schedule avoids it: from such a state every run without new mail has
  // boundedly many steps of the goroutines, and where none of them can move an
  // entry, now or after a wait, every entry is sent or dropped.
  lemma EverySchedule(c: Config, now: int, steps: seq<Step>, more: seq<Step>)
    requires Buffered(c) && Legal(c, Start(now), steps)
    requires Live(After(c, Start(now), steps)) <= Threshold(c)
    requires Legal(c, After(c, Start(now), steps), more) && NoArrivals(more)
    ensures var s := After(c, Start(now), steps); var t := After(c, s, more);
            && InternalSteps(more) + Measure(c, t) <= Measure(c, s) + TotalInjected(c, more)
            && (!Movable(c, t) && !Asleep(t) <==> AllFinished(t))
  {
    hide Measure, Live, Legal, After, WithinCapacity, Each, Movable, Asleep;
    var s := After(c, Start(now), steps);
    ReachedIsLight(c, now, steps);
    WorkBound(c, s, more);
    LightRun(c, s, more);
    var t := After(c, s, more);
    NoneLive(t);
    if AllFinished(t) {
      FinishedIsStill(c, t);
    } else {
      NotLoaded(c, t);
      StuckIffFullyLoaded(c, t);
    }
  }

  lemma FinishedIsStill(c: Config, s: State)
    requires AllFinished(s)
    ensures !Movable(c, s) && !Asleep(s)
  {
    forall step | Enabled(c, s, step)
      ensures !MoveOf(c, s, step).Shift?
    {
    }
    assert At(s, RetrySleeping) != [] ==> Terminal(RetrySleeping);
  }
}
