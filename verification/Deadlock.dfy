// The senders push to the error queue while the retry task pushes back to the
// mail queue. This file says exactly when the two block each other.
module Deadlock {
  import opened Wrappers
  import opened Pipeline
  import Retries
  import Dns

  function Load(s: State, p: Place): nat {
    |At(s, p)|
  }

  // Entries that are neither sent nor dropped.
  function Live(s: State): nat {
    Load(s, MailQueue) + Load(s, DispatcherHand) + Load(s, InFlight) + Load(s, Deferring)
    + Load(s, ErrorQueue) + Load(s, RetrySleeping) + Load(s, RetryReady) + Load(s, FlusherHand)
  }

  // What channel capacities and one-entry hands allow.
  predicate WithinCapacity(c: Config, s: State) {
    && Load(s, MailQueue) <= c.mailCapacity
    && Load(s, ErrorQueue) <= c.errorCapacity
    && Load(s, DispatcherHand) <= 1
    && Tokens(s) <= c.senders
    && Load(s, RetrySleeping) + Load(s, RetryReady) <= 1
    && Load(s, FlusherHand) == if s.flusher == Holding then 1 else 0
  }

  lemma LoadsAfter(c: Config, s: State, step: Step, p: Place)
    requires Enabled(c, s, step)
    ensures var m := MoveOf(c, s, step);
            Load(Apply(c, s, step), p)
            == Load(s, p) + (if step.Arrive? && p == MailQueue then 1 else 0)
               + (if m.Shift? && m.to == p then 1 else 0) - (if m.Shift? && m.from == p then 1 else 0)
  {
    if !step.Arrive? {
      MovedLoads(c, s, step, p);
    }
  }

  lemma MovedLoads(c: Config, s: State, step: Step, p: Place)
    requires Enabled(c, s, step) && !step.Arrive?
    ensures var m := MoveOf(c, s, step);
            Load(Apply(c, s, step), p)
            == Load(s, p) + (if m.Shift? && m.to == p then 1 else 0) - (if m.Shift? && m.from == p then 1 else 0)
  {
    hide Apply, MoveOf, Relocate, Enabled;
    ApplyRelocates(c, s, step);
    RelocatedLoads(s, MoveOf(c, s, step), p);
  }

  lemma RelocatedLoads(s: State, m: Move, p: Place)
    requires m.Shift? ==> m.i < |At(s, m.from)| && m.from != m.to
    ensures Load(Relocate(s, m), p)
            == Load(s, p) + (if m.Shift? && m.to == p then 1 else 0) - (if m.Shift? && m.from == p then 1 else 0)
  {
    if m.Shift? {
      hide Relocate, At;
      MoveFrame(s, m);
    }
  }

  lemma CapacityStep(c: Config, s: State, step: Step)
    requires Enabled(c, s, step) && WithinCapacity(c, s)
    ensures WithinCapacity(c, Apply(c, s, step))
  {
    LoadsAfter(c, s, step, MailQueue);
    LoadsAfter(c, s, step, ErrorQueue);
    LoadsAfter(c, s, step, DispatcherHand);
    LoadsAfter(c, s, step, InFlight);
    LoadsAfter(c, s, step, Deferring);
    LoadsAfter(c, s, step, RetrySleeping);
    LoadsAfter(c, s, step, RetryReady);
    LoadsAfter(c, s, step, FlusherHand);
    StepSummary(c, s, step);
  }

  // The control flow of the steps that capacities depend on.
  lemma StepSummary(c: Config, s: State, step: Step)
    requires Enabled(c, s, step)
    ensures var m := MoveOf(c, s, step); var t := Apply(c, s, step);
            && (m.Shift? && m.to == MailQueue ==> Load(s, MailQueue) < c.mailCapacity)
            && (m.Shift? && m.to == ErrorQueue ==> Load(s, ErrorQueue) < c.errorCapacity)
            && (m.Shift? && m.to == DispatcherHand ==> Load(s, DispatcherHand) == 0)
            && (m.Shift? && m.to == InFlight ==> Tokens(s) < c.senders)
            && (m.Shift? && m.to == Deferring ==> m.from == InFlight)
            && (m.Shift? && m.to == RetrySleeping ==> Load(s, RetrySleeping) + Load(s, RetryReady) == 0)
            && (m.Shift? && m.to == RetryReady ==> m.from == RetrySleeping)
            && (m.Shift? && m.to == FlusherHand ==> s.flusher == Receiving && t.flusher == Holding)
            && (m.Shift? && m.from == FlusherHand ==> s.flusher == Holding && t.flusher == Checking)
            && (!(m.Shift? && (m.from == FlusherHand || m.to == FlusherHand))
                ==> (s.flusher == Holding <==> t.flusher == Holding))
            && (step.Arrive? ==> Load(s, MailQueue) < c.mailCapacity && m == Stay)
  {
  }

  lemma {:induction false} CapacityRun(c: Config, s: State, steps: seq<Step>)
    requires WithinCapacity(c, s) && Legal(c, s, steps)
    ensures WithinCapacity(c, After(c, s, steps))
    decreases |steps|
  {
    if steps != [] {
      CapacityStep(c, s, steps[0]);
      CapacityRun(c, Apply(c, s, steps[0]), steps[1..]);
    }
  }

  // Some task can move some entry now.
  ghost predicate Movable(c: Config, s: State) {
    exists step :: Enabled(c, s, step) && MoveOf(c, s, step).Shift?
  }

  // The retry task is only waiting for the clock.
  predicate Asleep(s: State) {
    At(s, RetrySleeping) != [] && At(s, RetrySleeping)[0].unqueueTime > s.now
  }

  // Both queues full, every sender blocked in PushError, the dispatcher waiting
  // for a token, the retry task waiting for room in the mail queue.
  predicate FullyLoaded(c: Config, s: State) {
    && Load(s, MailQueue) == c.mailCapacity
    && Load(s, ErrorQueue) == c.errorCapacity
    && Load(s, DispatcherHand) == 1
    && Load(s, InFlight) == 0
    && Load(s, Deferring) == c.senders
    && Load(s, RetryReady) == 1
    && s.flusher != Receiving
  }

  predicate CanMove(c: Config, s: State, step: Step) {
    Enabled(c, s, step) && MoveOf(c, s, step).Shift?
  }

  lemma FullyLoadedIsStuck(c: Config, s: State)
    requires Buffered(c) && WithinCapacity(c, s) && FullyLoaded(c, s)
    ensures !Movable(c, s) && !Asleep(s)
    ensures Live(s) == c.mailCapacity + c.errorCapacity + c.senders + 2 + Load(s, FlusherHand)
  {
  }

  // A step that moves an entry, in every live state that is not fully loaded.
  lemma SomeMove(c: Config, s: State) returns (step: Step)
    requires Buffered(c) && WithinCapacity(c, s) && Live(s) >= 1
    requires !FullyLoaded(c, s) && !Asleep(s)
    ensures CanMove(c, s, step)
  {
    if Load(s, InFlight) > 0 {
      step := AttemptSucceeds(0);
    } else if Load(s, Deferring) > 0 && Load(s, ErrorQueue) < c.errorCapacity {
      step := SenderDefers(0);
    } else if Load(s, RetrySleeping) > 0 {
      step := RetryWakes;
    } else if Load(s, ErrorQueue) > 0 && Load(s, RetryReady) == 0 {
      step := RetryTakes;
    } else if Load(s, ErrorQueue) > 0 && s.flusher == Receiving {
      step := FlushTakes;
    } else if Load(s, RetryReady) > 0 && Load(s, MailQueue) < c.mailCapacity {
      step := RetryPushes;
    } else if Load(s, DispatcherHand) > 0 && Tokens(s) < c.senders {
      step := DispatcherSpawns;
    } else if Load(s, MailQueue) > 0 && Load(s, DispatcherHand) == 0 {
      step := DispatcherTakes;
    } else {
      step := FlushPushes;
    }
  }

  // The exact deadlock: no entry can move, not even after a wait, in precisely
  // the fully loaded states.
  lemma StuckIffFullyLoaded(c: Config, s: State)
    requires Buffered(c) && WithinCapacity(c, s) && Live(s) >= 1
    ensures !Movable(c, s) && !Asleep(s) <==> FullyLoaded(c, s)
  {
    if FullyLoaded(c, s) {
      FullyLoadedIsStuck(c, s);
    } else if !Asleep(s) {
      var step := SomeMove(c, s);
      assert Enabled(c, s, step);
    }
  }

  // Below the threshold no run ever gets stuck.
  lemma ProgressBelowThreshold(c: Config, now: int, steps: seq<Step>)
    requires Buffered(c) && Legal(c, Start(now), steps)
    requires 1 <= Live(After(c, Start(now), steps)) <= c.mailCapacity + c.errorCapacity + c.senders + 1
    ensures var s := After(c, Start(now), steps); Movable(c, s) || Asleep(s)
  {
    CapacityRun(c, Start(now), steps);
    var s := After(c, Start(now), steps);
    StuckIffFullyLoaded(c, s);
    if FullyLoaded(c, s) {
      FullyLoadedIsStuck(c, s);
    }
  }

  // A stuck system stays stuck: until a flush is started nothing but the clock moves.
  lemma StuckUntilFlush(c: Config, s: State, step: Step)
    requires Buffered(c) && WithinCapacity(c, s) && FullyLoaded(c, s) && s.flusher == Off
    requires Enabled(c, s, step) && !step.FlushStarts?
    ensures FullyLoaded(c, Apply(c, s, step)) && Apply(c, s, step).flusher == Off
    ensures Apply(c, s, step).at == s.at
  {
    FullyLoadedIsStuck(c, s);
    assert !(Enabled(c, s, step) && MoveOf(c, s, step).Shift?);
    assert forall p :: At(Apply(c, s, step), p) == At(s, p);
  }

  // With room in the error queue, a blocked sender returns and the dispatcher goes on.
  lemma RoomFrees(c: Config, s: State)
    requires c.senders >= 1 && Load(s, ErrorQueue) < c.errorCapacity
    requires Load(s, DispatcherHand) == 1 && Load(s, InFlight) == 0 && Load(s, Deferring) == c.senders
    ensures Legal(c, s, [SenderDefers(0), DispatcherSpawns])
  {
    var t := Apply(c, s, SenderDefers(0));
    LoadsAfter(c, s, SenderDefers(0), Deferring);
    LoadsAfter(c, s, SenderDefers(0), InFlight);
    LoadsAfter(c, s, SenderDefers(0), DispatcherHand);
    FirstThen(c, t, DispatcherSpawns, []);
    FirstThen(c, s, SenderDefers(0), [DispatcherSpawns]);
  }

  lemma TakingFrees(c: Config, s: State)
    requires Buffered(c) && WithinCapacity(c, s) && FullyLoaded(c, s.(flusher := Off)) && s.flusher == Receiving
    ensures Legal(c, s, [FlushTakes, SenderDefers(0), DispatcherSpawns])
  {
    LoadsAfter(c, s, FlushTakes, ErrorQueue);
    LoadsAfter(c, s, FlushTakes, Deferring);
    LoadsAfter(c, s, FlushTakes, InFlight);
    LoadsAfter(c, s, FlushTakes, DispatcherHand);
    RoomFrees(c, Apply(c, s, FlushTakes));
    FirstThen(c, s, FlushTakes, [SenderDefers(0), DispatcherSpawns]);
  }

  // A flush frees it: the flusher takes an entry, and a sender can go on.
  lemma FlushFrees(c: Config, s: State)
    requires Buffered(c) && WithinCapacity(c, s) && FullyLoaded(c, s) && s.flusher == Off
    ensures Legal(c, s, [FlushStarts, FlushChecks, FlushTakes, SenderDefers(0), DispatcherSpawns])
  {
    var checking := s.(flusher := Checking);
    var receiving := s.(flusher := Receiving);
    var rest := [FlushTakes, SenderDefers(0), DispatcherSpawns];
    assert Apply(c, s, FlushStarts) == checking && Apply(c, checking, FlushChecks) == receiving;
    TakingFrees(c, receiving);
    hide Legal, Apply;
    FirstThen(c, checking, FlushChecks, rest);
    FirstThen(c, s, FlushStarts, [FlushChecks] + rest);
    assert [FlushStarts] + ([FlushChecks] + rest)
        == [FlushStarts, FlushChecks, FlushTakes, SenderDefers(0), DispatcherSpawns];
  }

  lemma FirstThen(c: Config, s: State, first: Step, rest: seq<Step>)
    requires Enabled(c, s, first) && Legal(c, Apply(c, s, first), rest)
    ensures Legal(c, s, [first] + rest)
    ensures After(c, s, [first] + rest) == After(c, Apply(c, s, first), rest)
  {
  }

  // ----- A run that ends in the deadlock --------------------------------------

  const ANY_LETTER := Letter("", [], "", "", "", 0)

  // Only the load of p changed, by one entry.
  ghost predicate Grew(s: State, t: State, p: Place) {
    && (forall p' :: p' != p ==> At(t, p') == At(s, p'))
    && Load(t, p) == Load(s, p) + 1
    && t.flusher == s.flusher
  }

  // One more message fails for now and waits to be deferred.
  lemma AddDeferring(c: Config, origin: State, steps: seq<Step>) returns (longer: seq<Step>)
    requires c.mailCapacity >= 1 && c.maxErrors >= 2 && Legal(c, origin, steps)
    requires var s := After(c, origin, steps);
             && At(s, MailQueue) == [] && At(s, DispatcherHand) == [] && At(s, InFlight) == []
             && Load(s, Deferring) < c.senders
    ensures Legal(c, origin, longer)
    ensures Grew(After(c, origin, steps), After(c, origin, longer), Deferring)
  {
    var s := After(c, origin, steps);
    FailOne(c, s);
    longer := steps + FAIL_ONE;
    AppendRun(c, origin, steps, FAIL_ONE);
  }

  lemma {:induction false} AppendRun(c: Config, s: State, a: seq<Step>, b: seq<Step>)
    requires Legal(c, s, a) && Legal(c, After(c, s, a), b)
    ensures Legal(c, s, a + b) && After(c, s, a + b) == After(c, After(c, s, a), b)
    decreases |a|
  {
    if a == [] {
      assert a + b == b;
    } else {
      AppendRun(c, Apply(c, s, a[0]), a[1..], b);
      assert (a + b)[1..] == a[1..] + b;
    }
  }

  const ARRIVE_ANY := Arrive(ANY_LETTER, "")
  const FAIL_FIRST := AttemptFails(0, 450, Dns.ResolverFailed)
  const FAIL_ONE := [ARRIVE_ANY, DispatcherTakes, DispatcherSpawns, FAIL_FIRST]

  ghost predicate SameBut(s: State, t: State, p: Place, q: Place) {
    (forall p' :: p' != p && p' != q ==> At(t, p') == At(s, p')) && t.flusher == s.flusher
  }

  // What a step that moves an entry does to the places involved.
  lemma StepFrame(c: Config, s: State, step: Step)
    requires Enabled(c, s, step) && MoveOf(c, s, step).Shift?
    requires !step.FlushTakes? && !step.FlushPushes?
    ensures var m := MoveOf(c, s, step); var t := Apply(c, s, step);
            && At(t, m.from) == RemoveAt(At(s, m.from), m.i)
            && At(t, m.to) == At(s, m.to) + [m.entry]
            && SameBut(s, t, m.from, m.to)
  {
    var m := MoveOf(c, s, step);
    ApplyRelocates(c, s, step);
    assert forall p :: At(Apply(c, s, step), p) == At(Relocate(s, m), p);
  }

  lemma LaunchOne(c: Config, s: State) returns (s1: State, s2: State, s3: State)
    requires c.mailCapacity >= 1
    requires At(s, MailQueue) == [] && At(s, DispatcherHand) == [] && At(s, InFlight) == []
    requires Load(s, Deferring) < c.senders
    ensures Enabled(c, s, ARRIVE_ANY) && s1 == Apply(c, s, ARRIVE_ANY)
    ensures Enabled(c, s1, DispatcherTakes) && s2 == Apply(c, s1, DispatcherTakes)
    ensures Enabled(c, s2, DispatcherSpawns) && s3 == Apply(c, s2, DispatcherSpawns)
    ensures Load(s3, InFlight) == 1 && At(s3, InFlight)[0].errorCount == 0
    ensures forall p :: p != InFlight ==> At(s3, p) == At(s, p)
    ensures s3.flusher == s.flusher
  {
    hide Relocate;
    var e := NewEntry(|s.pushed|, ANY_LETTER, "");
    s1 := Apply(c, s, ARRIVE_ANY);
    assert At(s1, MailQueue) == [e] && forall p :: p != MailQueue ==> At(s1, p) == At(s, p);
    StepFrame(c, s1, DispatcherTakes);
    s2 := Apply(c, s1, DispatcherTakes);
    assert At(s2, MailQueue) == [] && At(s2, DispatcherHand) == [e];
    StepFrame(c, s2, DispatcherSpawns);
    s3 := Apply(c, s2, DispatcherSpawns);
    assert At(s3, InFlight) == [Launched(e, s2.now)];
  }

  lemma FailOne(c: Config, s: State)
    requires c.mailCapacity >= 1 && c.maxErrors >= 2
    requires At(s, MailQueue) == [] && At(s, DispatcherHand) == [] && At(s, InFlight) == []
    requires Load(s, Deferring) < c.senders
    ensures Legal(c, s, FAIL_ONE)
    ensures Grew(s, After(c, s, FAIL_ONE), Deferring)
  {
    var s1, s2, s3 := LaunchOne(c, s);
    FailsForNow(c, s3);
    FirstThen(c, s3, FAIL_FIRST, []);
    FirstThen(c, s2, DispatcherSpawns, [FAIL_FIRST]);
    FirstThen(c, s1, DispatcherTakes, [DispatcherSpawns, FAIL_FIRST]);
    FirstThen(c, s, ARRIVE_ANY, [DispatcherTakes, DispatcherSpawns, FAIL_FIRST]);
  }

  lemma FailsForNow(c: Config, s: State)
    requires c.maxErrors >= 2 && Load(s, InFlight) == 1 && At(s, InFlight)[0].errorCount == 0
    ensures Enabled(c, s, FAIL_FIRST)
    ensures var t := Apply(c, s, FAIL_FIRST);
            At(t, InFlight) == [] && Load(t, Deferring) == Load(s, Deferring) + 1
            && SameBut(s, t, InFlight, Deferring)
  {
    assert AfterFailure(c, At(s, InFlight)[0], 450, Dns.ResolverFailed, s.now).Defer?;
    StepFrame(c, s, FAIL_FIRST);
    assert RemoveAt(At(s, InFlight), 0) == [];
  }

  // One more message fails and reaches the error queue.
  lemma AddError(c: Config, origin: State, steps: seq<Step>) returns (longer: seq<Step>)
    requires Buffered(c) && c.maxErrors >= 2 && Legal(c, origin, steps)
    requires var s := After(c, origin, steps);
             && At(s, MailQueue) == [] && At(s, DispatcherHand) == [] && At(s, InFlight) == []
             && At(s, Deferring) == [] && Load(s, ErrorQueue) < c.errorCapacity
    ensures Legal(c, origin, longer)
    ensures Grew(After(c, origin, steps), After(c, origin, longer), ErrorQueue)
  {
    var s := After(c, origin, steps);
    longer := AddDeferring(c, origin, steps);
    var s1 := After(c, origin, longer);
    ExtendRun(c, origin, longer, SenderDefers(0));
    StepFrame(c, s1, SenderDefers(0));
    assert RemoveAt(At(s1, Deferring), 0) == [];
    longer := longer + [SenderDefers(0)];
  }

  // The retry task picks up a first failed message and finds its time has come.
  lemma ReadyRetry(c: Config) returns (steps: seq<Step>)
    requires Buffered(c) && c.maxErrors >= 2
    ensures Legal(c, Start(0), steps)
    ensures var s := After(c, Start(0), steps);
            && (forall p :: p != RetryReady ==> At(s, p) == [])
            && Load(s, RetryReady) == 1 && s.flusher == Off
  {
    assert Legal(c, Start(0), []) && After(c, Start(0), []) == Start(0);
    steps := AddError(c, Start(0), []);
    var s1 := After(c, Start(0), steps);
    StepFrame(c, s1, RetryTakes);
    assert RemoveAt(At(s1, ErrorQueue), 0) == [];
    ExtendRun(c, Start(0), steps, RetryTakes);
    steps := WakeUp(c, steps + [RetryTakes]);
  }

  lemma WakeUp(c: Config, steps: seq<Step>) returns (longer: seq<Step>)
    requires Legal(c, Start(0), steps)
    requires var s := After(c, Start(0), steps);
             && (forall p :: p != RetrySleeping ==> At(s, p) == [])
             && Load(s, RetrySleeping) == 1 && s.flusher == Off
    ensures Legal(c, Start(0), longer)
    ensures var s := After(c, Start(0), longer);
            && (forall p :: p != RetryReady ==> At(s, p) == [])
            && Load(s, RetryReady) == 1 && s.flusher == Off
  {
    var s := After(c, Start(0), steps);
    var tick := Tick(At(s, RetrySleeping)[0].unqueueTime);
    ExtendRun(c, Start(0), steps, tick);
    var s1 := Apply(c, s, tick);
    assert forall p :: At(s1, p) == At(s, p);
    StepFrame(c, s1, RetryWakes);
    assert RemoveAt(At(s1, RetrySleeping), 0) == [];
    ExtendRun(c, Start(0), steps + [tick], RetryWakes);
    longer := steps + [tick] + [RetryWakes];
  }

  // Error queue full, every sender blocked, mail queue still empty.
  lemma SendersBlocked(c: Config) returns (steps: seq<Step>)
    requires Buffered(c) && c.maxErrors >= 2
    ensures Legal(c, Start(0), steps)
    ensures var s := After(c, Start(0), steps);
            && At(s, MailQueue) == [] && At(s, DispatcherHand) == [] && At(s, InFlight) == []
            && Load(s, ErrorQueue) == c.errorCapacity && Load(s, Deferring) == c.senders
            && Load(s, RetryReady) == 1 && s.flusher == Off
            && At(s, RetrySleeping) == [] && At(s, FlusherHand) == []
  {
    steps := ReadyRetry(c);
    for k := 0 to c.errorCapacity
      invariant Legal(c, Start(0), steps)
      invariant var s := After(c, Start(0), steps);
                && (forall p :: p != RetryReady && p != ErrorQueue ==> At(s, p) == [])
                && Load(s, RetryReady) == 1 && Load(s, ErrorQueue) == k && s.flusher == Off
    {
      steps := AddError(c, Start(0), steps);
    }
    for k := 0 to c.senders
      invariant Legal(c, Start(0), steps)
      invariant var s := After(c, Start(0), steps);
                && (forall p :: p != RetryReady && p != ErrorQueue && p != Deferring ==> At(s, p) == [])
                && Load(s, RetryReady) == 1 && Load(s, ErrorQueue) == c.errorCapacity
                && Load(s, Deferring) == k && s.flusher == Off
    {
      steps := AddDeferring(c, Start(0), steps);
    }
  }

  // One more message arrives and stays in the mail queue.
  lemma AddMail(c: Config, steps: seq<Step>) returns (longer: seq<Step>)
    requires Legal(c, Start(0), steps) && Load(After(c, Start(0), steps), MailQueue) < c.mailCapacity
    ensures Legal(c, Start(0), longer)
    ensures Grew(After(c, Start(0), steps), After(c, Start(0), longer), MailQueue)
  {
    hide Legal, After, Relocate;
    var s := After(c, Start(0), steps);
    ExtendRun(c, Start(0), steps, ARRIVE_ANY);
    longer := steps + [ARRIVE_ANY];
    assert forall p :: p != MailQueue ==> At(Apply(c, s, ARRIVE_ANY), p) == At(s, p);
  }

  // The dispatcher holds a message it cannot hand to a sender.
  lemma DispatcherBlocked(c: Config) returns (steps: seq<Step>)
    requires Buffered(c) && c.maxErrors >= 2
    ensures Legal(c, Start(0), steps)
    ensures var s := After(c, Start(0), steps);
            && At(s, MailQueue) == [] && Load(s, DispatcherHand) == 1 && At(s, InFlight) == []
            && Load(s, ErrorQueue) == c.errorCapacity && Load(s, Deferring) == c.senders
            && Load(s, RetryReady) == 1 && s.flusher == Off
            && At(s, RetrySleeping) == [] && At(s, FlusherHand) == []
  {
    hide Legal, After, Apply;
    var before := SendersBlocked(c);
    steps := AddMail(c, before);
    var s1 := After(c, Start(0), steps);
    ExtendRun(c, Start(0), steps, DispatcherTakes);
    StepFrame(c, s1, DispatcherTakes);
    steps := steps + [DispatcherTakes];
    assert RemoveAt(At(s1, MailQueue), 0) == [];
  }

  // The threshold is tight: with mailCapacity + errorCapacity + senders + 2
  // messages the relay can deadlock.
  lemma DeadlockReachable(c: Config) returns (steps: seq<Step>)
    requires Buffered(c) && c.maxErrors >= 2
    ensures Legal(c, Start(0), steps)
    ensures var s := After(c, Start(0), steps);
            && FullyLoaded(c, s) && s.flusher == Off
            && Live(s) == c.mailCapacity + c.errorCapacity + c.senders + 2
  {
    hide Legal, After;
    steps := DispatcherBlocked(c);
    ghost var s := After(c, Start(0), steps);
    for k := 0 to c.mailCapacity
      invariant Legal(c, Start(0), steps)
      invariant var t := After(c, Start(0), steps);
                && (forall p :: p != MailQueue ==> At(t, p) == At(s, p))
                && Load(t, MailQueue) == k && t.flusher == Off
    {
      steps := AddMail(c, steps);
    }
  }

  // Deadlock needs retries: it is reachable exactly if a message may fail twice.
  lemma DeadlockNeedsRetries(c: Config)
    requires Buffered(c)
    ensures (exists steps :: Legal(c, Start(0), steps) && FullyLoaded(c, After(c, Start(0), steps)))
            <==> c.maxErrors >= 2
  {
    if c.maxErrors >= 2 {
      var steps := DeadlockReachable(c);
      assert Legal(c, Start(0), steps);
    } else {
      forall steps | Legal(c, Start(0), steps)
        ensures !FullyLoaded(c, After(c, Start(0), steps))
      {
        ErrorsNeedRetries(c, steps);
      }
    }
  }

  lemma ErrorsNeedRetries(c: Config, steps: seq<Step>)
    requires Legal(c, Start(0), steps)
    ensures Load(After(c, Start(0), steps), ErrorQueue) > 0 ==> c.maxErrors >= 2
  {
    Retries.LedgerRun(c, Start(0), steps);
    var s := After(c, Start(0), steps);
    if Load(s, ErrorQueue) > 0 {
      assert Retries.Ledger(c)(ErrorQueue, At(s, ErrorQueue)[0]);
    }
  }
}
