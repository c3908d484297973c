// How often an entry is attempted, and why the tasks run out of work.
module Retries {
  import opened Wrappers
  import opened Pipeline
  import Dns

  function Max(a: nat, b: nat): nat {
    if a < b then b else a
  }

  // The most attempts one entry can get.
  function AttemptBound(c: Config): nat {
    Max(1, c.maxErrors)
  }

  // An unflushed entry has one attempt per counted error, a flushed one the
  // attempts it had when it was flushed.
  predicate Waiting(c: Config, e: QueueEntry) {
    match e.flushedAt
    case None => |e.trail| == e.errorCount < AttemptBound(c)
    case Some(k) => e.errorCount == c.maxErrors && |e.trail| == k && 1 <= k < c.maxErrors
  }

  predicate Launching(c: Config, e: QueueEntry) {
    match e.flushedAt
    case None => |e.trail| == e.errorCount + 1 <= AttemptBound(c)
    case Some(k) => e.errorCount == c.maxErrors && |e.trail| == k + 1 && 1 <= k < c.maxErrors
  }

  predicate Deferred(c: Config, e: QueueEntry) {
    e.flushedAt.None? && 1 <= |e.trail| == e.errorCount < c.maxErrors
  }

  predicate Finished(c: Config, e: QueueEntry) {
    && 1 <= |e.trail| <= AttemptBound(c)
    && (e.flushedAt.Some? ==> |e.trail| == e.flushedAt.value + 1)
  }

  predicate LedgerAt(c: Config, p: Place, e: QueueEntry) {
    match p
    case MailQueue => Waiting(c, e)
    case DispatcherHand => Waiting(c, e)
    case InFlight => Launching(c, e)
    case Deferring => Deferred(c, e)
    case ErrorQueue => Deferred(c, e)
    case RetrySleeping => Deferred(c, e)
    case RetryReady => Deferred(c, e)
    case FlusherHand => Waiting(c, e) && e.flushedAt.Some?
    case Sent => Finished(c, e)
    case Dropped => Finished(c, e)
  }

  function Ledger(c: Config): Fact {
    (p: Place, e: QueueEntry) => LedgerAt(c, p, e)
  }

  lemma LedgerStep(c: Config, s: State, step: Step)
    requires Enabled(c, s, step) && Each(s, Ledger(c))
    ensures Each(Apply(c, s, step), Ledger(c))
  {
    var m := MoveOf(c, s, step);
    if m.Shift? {
      assert Ledger(c)(m.from, At(s, m.from)[m.i]);
    }
    EachStep(c, s, step, Ledger(c));
  }

  lemma {:induction false} LedgerRun(c: Config, s: State, steps: seq<Step>)
    requires Each(s, Ledger(c)) && Legal(c, s, steps)
    ensures Each(After(c, s, steps), Ledger(c))
    decreases |steps|
  {
    if steps != [] {
      LedgerStep(c, s, steps[0]);
      LedgerRun(c, Apply(c, s, steps[0]), steps[1..]);
    }
  }

  // Bounded retries: in every run no entry is attempted more than
  // max(1, DeferredMailMaxErrors) times, and every entry of the error queue has
  // been counted at least once and may still be retried.
  lemma BoundedRetries(c: Config, now: int, steps: seq<Step>, p: Place, i: nat)
    requires Legal(c, Start(now), steps) && i < |At(After(c, Start(now), steps), p)|
    ensures |At(After(c, Start(now), steps), p)[i].trail| <= AttemptBound(c)
    ensures p == ErrorQueue ==> 1 <= At(After(c, Start(now), steps), p)[i].errorCount < c.maxErrors
    ensures p == Sent || p == Dropped ==> At(After(c, Start(now), steps), p)[i].trail != []
  {
    LedgerRun(c, Start(now), steps);
    var e := At(After(c, Start(now), steps), p)[i];
    assert Ledger(c)(p, e);
  }

  // A flushed entry gets one more attempt: it has had none since the flush
  // while it waits, and one when it is finished; it is never deferred again.
  lemma OneAttemptAfterFlush(c: Config, now: int, steps: seq<Step>, p: Place, i: nat)
    requires Legal(c, Start(now), steps) && i < |At(After(c, Start(now), steps), p)|
    requires At(After(c, Start(now), steps), p)[i].flushedAt.Some?
    ensures var e := At(After(c, Start(now), steps), p)[i];
            && p in {FlusherHand, MailQueue, DispatcherHand, InFlight, Sent, Dropped}
            && |e.trail| == e.flushedAt.value + if p in {InFlight, Sent, Dropped} then 1 else 0
  {
    LedgerRun(c, Start(now), steps);
    assert Ledger(c)(p, At(After(c, Start(now), steps), p)[i]);
  }

  // ----- Why an entry is given up ---------------------------------------------

  // The last word on a failed attempt: an answer of class 5xx, a flush before
  // the attempt, or no attempt left.
  predicate Hopeless(c: Config, e: QueueEntry, code: int) {
    code / 100 == 5 || e.flushedAt.Some? || |e.trail| >= AttemptBound(c)
  }

  // Where the next attempt goes: to the relay, to the exchanger that the lookup
  // gives for as many attempts as were made, or where the failed one went.
  ghost predicate GoesTo(c: Config, e: QueueEntry, answer: Dns.MxAnswer, server: string) {
    if c.relayMode then server == c.relayServer
    else
      || Dns.Resolves(e.letter.recipientDomain, |e.trail|, answer, server)
      || (server == e.mailServer && forall x :: !Dns.Resolves(e.letter.recipientDomain, |e.trail|, answer, x))
  }

  // A failed attempt ends in Dropped exactly then; otherwise the entry is deferred,
  // with one more counted error, until the delay is over.
  lemma DroppedIff(c: Config, s: State, i: nat, code: int, answer: Dns.MxAnswer)
    requires Each(s, Ledger(c)) && Enabled(c, s, AttemptFails(i, code, answer))
    ensures var e := At(s, InFlight)[i]; var t := Apply(c, s, AttemptFails(i, code, answer));
            if Hopeless(c, e, code) then
              && At(t, Deferring) == At(s, Deferring)
              && exists d :: At(t, Dropped) == At(s, Dropped) + [d] && SameMail(d, e)
            else
              && At(t, Dropped) == At(s, Dropped)
              && exists d :: At(t, Deferring) == At(s, Deferring) + [d] && SameMail(d, e)
                          && d.errorCount == |e.trail| && d.lastCode == code
                          && d.queueTime == s.now && d.unqueueTime == s.now + c.delay
                          && GoesTo(c, e, answer, d.mailServer)
  {
    var step := AttemptFails(i, code, answer);
    var e, m := At(s, InFlight)[i], MoveOf(c, s, step);
    assert Ledger(c)(InFlight, e);
    ApplyRelocates(c, s, step);
    MoveFrame(s, m);
    assert At(Apply(c, s, step), m.to) == At(s, m.to) + [m.entry];
    assert SameMail(m.entry, e);
    forall x
      ensures Dns.MailServerFor(e.letter.recipientDomain, |e.trail|, answer) == Ok(x)
              <==> Dns.Resolves(e.letter.recipientDomain, |e.trail|, answer, x)
    {
      Dns.LookupIff(e.letter.recipientDomain, |e.trail|, answer, x);
    }
    if m.to == Deferring {
      assert GoesTo(c, e, answer, m.entry.mailServer);
    }
  }

  // The same mail with the same attempts behind it.
  predicate SameMail(d: QueueEntry, e: QueueEntry) {
    d.ticket == e.ticket && d.letter == e.letter && d.trail == e.trail && d.flushedAt == e.flushedAt
  }

  // Step k of the run gave the entry up.
  ghost predicate GaveUp(c: Config, s: State, steps: seq<Step>, k: nat, d: QueueEntry)
    requires Legal(c, s, steps) && k < |steps|
  {
    && steps[k].AttemptFails?
    && LegalPrefix(c, s, steps, k)
    && var t := After(c, s, steps[..k]);
       && steps[k].i < |At(t, InFlight)|
       && SameMail(d, At(t, InFlight)[steps[k].i]) && Hopeless(c, At(t, InFlight)[steps[k].i], steps[k].code)
  }

  predicate LegalPrefix(c: Config, s: State, steps: seq<Step>, k: nat)
    requires k <= |steps|
  {
    Legal(c, s, steps[..k])
  }

  lemma DroppedByStep(c: Config, s: State, step: Step, j: nat)
    requires Each(s, Ledger(c)) && Enabled(c, s, step)
    requires |At(s, Dropped)| <= j < |At(Apply(c, s, step), Dropped)|
    ensures step.AttemptFails? && step.i < |At(s, InFlight)|
    ensures var e := At(s, InFlight)[step.i];
            SameMail(At(Apply(c, s, step), Dropped)[j], e) && Hopeless(c, e, step.code)
  {
    if step.AttemptFails? {
      DroppedIff(c, s, step.i, step.code, step.answer);
    }
  }

  lemma DroppedStays(c: Config, s: State, step: Step)
    requires Enabled(c, s, step)
    ensures At(s, Dropped) <= At(Apply(c, s, step), Dropped)
  {
    if !step.Arrive? {
      ApplyRelocates(c, s, step);
      if MoveOf(c, s, step).Shift? {
        MoveFrame(s, MoveOf(c, s, step));
      }
    }
  }

  // In every run each dropped entry was given up by a step at which it was
  // hopeless: no entry loses an attempt that DeferredMailMaxErrors grants it.
  lemma {:induction false} WhyDropped(c: Config, s: State, steps: seq<Step>, j: nat) returns (k: nat)
    requires Each(s, Ledger(c)) && Legal(c, s, steps)
    requires |At(s, Dropped)| <= j < |At(After(c, s, steps), Dropped)|
    ensures k < |steps| && GaveUp(c, s, steps, k, At(After(c, s, steps), Dropped)[j])
    decreases |steps|
  {
    hide SameMail, Hopeless, Enabled, Apply;
    var t := Apply(c, s, steps[0]);
    LedgerStep(c, s, steps[0]);
    DroppedStays(c, s, steps[0]);
    if j < |At(t, Dropped)| {
      k := 0;
      DroppedByStep(c, s, steps[0], j);
      DroppedRun(c, t, steps[1..]);
      assert steps[..0] == [];
    } else {
      var k' := WhyDropped(c, t, steps[1..], j);
      k := k' + 1;
      assert steps[..k][1..] == steps[1..][..k'] && (k > 0 ==> steps[..k][0] == steps[0]);
      assert LegalPrefix(c, t, steps[1..], k');
    }
  }

  lemma {:induction false} DroppedRun(c: Config, s: State, steps: seq<Step>)
    requires Legal(c, s, steps)
    ensures At(s, Dropped) <= At(After(c, s, steps), Dropped)
    decreases |steps|
  {
    hide Enabled, Apply;
    if steps != [] {
      DroppedStays(c, s, steps[0]);
      DroppedRun(c, Apply(c, s, steps[0]), steps[1..]);
    }
  }

  predicate NoPermanentFailure(steps: seq<Step>) {
    forall k :: 0 <= k < |steps| && steps[k].AttemptFails? ==> steps[k].code / 100 != 5
  }

  // Without answers of class 5xx an entry that no flush touched is dropped only
  // after max(1, DeferredMailMaxErrors) attempts.
  lemma AllAttemptsMade(c: Config, now: int, steps: seq<Step>, j: nat)
    requires Legal(c, Start(now), steps) && NoPermanentFailure(steps)
    requires j < |At(After(c, Start(now), steps), Dropped)|
    ensures var d := At(After(c, Start(now), steps), Dropped)[j];
            d.flushedAt.None? ==> |d.trail| == AttemptBound(c)
  {
    var k := WhyDropped(c, Start(now), steps, j);
    LedgerRun(c, Start(now), steps);
    assert Ledger(c)(Dropped, At(After(c, Start(now), steps), Dropped)[j]);
  }

  // ----- The measure ----------------------------------------------------------

  function Rank(p: Place): nat {
    match p
    case Deferring => 7
    case ErrorQueue => 6
    case RetrySleeping => 5
    case RetryReady => 4
    case FlusherHand => 4
    case MailQueue => 3
    case DispatcherHand => 2
    case InFlight => 1
    case Sent => 0
    case Dropped => 0
  }

  // Attempts an entry can still start if it is not in flight.
  function Remaining(c: Config, e: QueueEntry): nat {
    if e.errorCount + 1 < c.maxErrors then c.maxErrors - e.errorCount else 1
  }

  function Weight(c: Config, p: Place, e: QueueEntry): nat {
    if Terminal(p) then 0 else 3 * (7 * Remaining(c, e) + Rank(p))
  }

  function WeightGauge(c: Config): Gauge {
    (p: Place, e: QueueEntry) => Weight(c, p, e)
  }

  function FlusherWork(f: Flusher): nat {
    match f
    case Off => 0
    case Checking => 2
    case Receiving => 1
    case Holding => 0
  }

  function Measure(c: Config, s: State): nat {
    Total(WeightGauge(c), s) + FlusherWork(s.flusher)
  }

  // Steps that come from outside: new mail, the clock, the flush signal.
  predicate External(step: Step) {
    step.Arrive? || step.Tick? || step.FlushStarts?
  }

  lemma WeightFalls(c: Config, s: State, step: Step)
    requires Enabled(c, s, step) && Each(s, Ledger(c)) && MoveOf(c, s, step).Shift?
    ensures var m := MoveOf(c, s, step);
            Weight(c, m.to, m.entry) + 3 <= Weight(c, m.from, At(s, m.from)[m.i])
  {
    var m := MoveOf(c, s, step);
    assert Ledger(c)(m.from, At(s, m.from)[m.i]);
  }

  lemma FlusherWorkStep(c: Config, s: State, step: Step)
    requires Enabled(c, s, step) && !External(step)
    ensures FlusherWork(Apply(c, s, step).flusher)
            <= FlusherWork(s.flusher) + if MoveOf(c, s, step).Shift? then 2 else -1
  {
  }

  // Every step of a task, queue move or flusher control step, makes the
  // measure fall.
  lemma MeasureFalls(c: Config, s: State, step: Step)
    requires Enabled(c, s, step) && Each(s, Ledger(c)) && !External(step)
    ensures Measure(c, Apply(c, s, step)) < Measure(c, s)
  {
    var g := WeightGauge(c);
    TotalStep(g, c, s, step);
    if MoveOf(c, s, step).Shift? {
      WeightFalls(c, s, step);
    }
    FlusherWorkStep(c, s, step);
  }

  // What an external step can add.
  function Injected(c: Config, step: Step): nat {
    match step
    case Arrive(_, _) => 3 * (7 * AttemptBound(c) + 3)
    case FlushStarts => 2
    case _ => 0
  }

  lemma MeasureExternal(c: Config, s: State, step: Step)
    requires Enabled(c, s, step) && External(step)
    ensures Measure(c, Apply(c, s, step)) == Measure(c, s) + Injected(c, step)
  {
    var g := WeightGauge(c);
    if step.Arrive? {
      TotalArrive(g, c, s, step);
    } else {
      TotalSameEntries(g, s, Apply(c, s, step));
    }
  }

  function InternalSteps(steps: seq<Step>): nat {
    if steps == [] then 0 else (if External(steps[0]) then 0 else 1) + InternalSteps(steps[1..])
  }

  function TotalInjected(c: Config, steps: seq<Step>): nat {
    if steps == [] then 0 else Injected(c, steps[0]) + TotalInjected(c, steps[1..])
  }

  // Termination of retries over whole runs: the tasks take at most as many
  // steps as the measure at the beginning and what arrived since allow.
  lemma {:induction false} WorkBound(c: Config, s: State, steps: seq<Step>)
    requires Each(s, Ledger(c)) && Legal(c, s, steps)
    ensures InternalSteps(steps) + Measure(c, After(c, s, steps))
            <= Measure(c, s) + TotalInjected(c, steps)
    decreases |steps|
  {
    if steps != [] {
      var t := Apply(c, s, steps[0]);
      LedgerStep(c, s, steps[0]);
      WorkBound(c, t, steps[1..]);
      if External(steps[0]) {
        MeasureExternal(c, s, steps[0]);
      } else {
        MeasureFalls(c, s, steps[0]);
      }
    }
  }

  // The measure is zero only when every entry is finished.
  lemma NoWorkLeft(c: Config, s: State, p: Place, i: nat)
    requires Measure(c, s) == 0 && i < |At(s, p)|
    ensures Terminal(p)
  {
  }
}
