// When and where the attempts of an entry happen: backoff and MX rotation.
module Schedule {
  import opened Wrappers
  import opened Pipeline
  import Retries
  import Dns

  // ----- Backoff --------------------------------------------------------------

  function LastStart(e: QueueEntry): int
    requires e.trail != []
  {
    e.trail[|e.trail| - 1].start
  }

  // Consecutive attempts are the delay apart, unless a flush forced the later one.
  ghost predicate Spaced(c: Config, e: QueueEntry) {
    forall k :: 0 < k < |e.trail| ==>
      e.trail[k].forced || e.trail[k].start - e.trail[k - 1].start >= c.delay
  }

  ghost predicate TimingAt(c: Config, now: int, p: Place, e: QueueEntry) {
    && Spaced(c, e)
    && (e.trail != [] ==> LastStart(e) <= now)
    && (match p
        case InFlight => e.trail != []
        case Deferring => e.trail != [] && LastStart(e) + c.delay <= e.unqueueTime
        case ErrorQueue => e.trail != [] && LastStart(e) + c.delay <= e.unqueueTime
        case RetrySleeping => e.trail != [] && LastStart(e) + c.delay <= e.unqueueTime
        case RetryReady => e.trail != [] && LastStart(e) + c.delay <= now
        case FlusherHand => e.flushedAt.Some?
        case MailQueue => e.trail != [] && e.flushedAt.None? ==> LastStart(e) + c.delay <= now
        case DispatcherHand => e.trail != [] && e.flushedAt.None? ==> LastStart(e) + c.delay <= now
        case _ => true)
  }

  ghost function Timing(c: Config, now: int): Fact {
    (p: Place, e: QueueEntry) => TimingAt(c, now, p, e)
  }

  // The clock does not go back during the run.
  predicate ClockForward(now: int, steps: seq<Step>)
    decreases |steps|
  {
    if steps == [] then true
    else if steps[0].Tick? then now <= steps[0].time && ClockForward(steps[0].time, steps[1..])
    else ClockForward(now, steps[1..])
  }

  lemma LaunchedOnTime(c: Config, now: int, e: QueueEntry)
    requires TimingAt(c, now, DispatcherHand, e)
    ensures TimingAt(c, now, InFlight, Launched(e, now))
  {
  }

  lemma TimingStep(c: Config, s: State, step: Step)
    requires Enabled(c, s, step) && Each(s, Timing(c, s.now))
    requires step.Tick? ==> s.now <= step.time
    ensures Each(Apply(c, s, step), Timing(c, Apply(c, s, step).now))
  {
    var later := Timing(c, Apply(c, s, step).now);
    assert Each(s, later) by {
      forall p: Place, i: nat | i < |At(s, p)|
        ensures later(p, At(s, p)[i])
      {
        assert Timing(c, s.now)(p, At(s, p)[i]);
      }
    }
    MovedOnTime(c, s, step);
    EachStep(c, s, step, later);
  }

  lemma MovedOnTime(c: Config, s: State, step: Step)
    requires Enabled(c, s, step) && Each(s, Timing(c, s.now))
    ensures var m := MoveOf(c, s, step);
            m.Shift? ==> Timing(c, Apply(c, s, step).now)(m.to, m.entry)
  {
    var m := MoveOf(c, s, step);
    if m.Shift? {
      var e := At(s, m.from)[m.i];
      assert Timing(c, s.now)(m.from, e);
      if step.DispatcherSpawns? {
        LaunchedOnTime(c, s.now, e);
      } else {
        assert m.entry.trail == e.trail;
      }
    }
  }

  lemma {:induction false} TimingRun(c: Config, s: State, steps: seq<Step>)
    requires Each(s, Timing(c, s.now)) && Legal(c, s, steps) && ClockForward(s.now, steps)
    ensures Each(After(c, s, steps), Timing(c, After(c, s, steps).now))
    decreases |steps|
  {
    if steps != [] {
      TimingStep(c, s, steps[0]);
      TimingRun(c, Apply(c, s, steps[0]), steps[1..]);
    }
  }

  // Backoff in every interleaving: two consecutive attempts of one entry start
  // at least DeferredMailDelay apart; only a flush can bring the last one forward.
  lemma Backoff(c: Config, now: int, steps: seq<Step>, p: Place, i: nat, k: nat)
    requires Legal(c, Start(now), steps) && ClockForward(now, steps)
    requires i < |At(After(c, Start(now), steps), p)|
    requires 0 < k < |At(After(c, Start(now), steps), p)[i].trail|
    ensures var e := At(After(c, Start(now), steps), p)[i];
            || e.trail[k].start - e.trail[k - 1].start >= c.delay
            || (e.flushedAt == Some(k) && k == |e.trail| - 1)
  {
    TimingRun(c, Start(now), steps);
    ForcedRun(c, Start(now), steps);
    Retries.LedgerRun(c, Start(now), steps);
    hide After, Legal, ClockForward;
    var s := After(c, Start(now), steps);
    assert Timing(c, s.now)(p, At(s, p)[i]);
    assert ForcedLast()(p, At(s, p)[i]);
    assert Retries.Ledger(c)(p, At(s, p)[i]);
  }

  // A forced attempt is the first one after the flush.
  predicate ForcedOnlyAfterFlush(e: QueueEntry) {
    forall k :: 0 <= k < |e.trail| ==>
      (e.trail[k].forced <==> e.flushedAt.Some? && e.flushedAt.value <= k)
  }

  function ForcedLast(): Fact {
    (p: Place, e: QueueEntry) => ForcedOnlyAfterFlush(e) && (e.flushedAt.Some? ==> e.flushedAt.value <= |e.trail|)
  }

  lemma ForcedStep(c: Config, s: State, step: Step)
    requires Enabled(c, s, step) && Each(s, ForcedLast()) && Each(s, Retries.Ledger(c))
    ensures Each(Apply(c, s, step), ForcedLast())
  {
    var m := MoveOf(c, s, step);
    if m.Shift? {
      assert ForcedLast()(m.from, At(s, m.from)[m.i]);
      assert Retries.Ledger(c)(m.from, At(s, m.from)[m.i]);
    }
    EachStep(c, s, step, ForcedLast());
  }

  lemma {:induction false} ForcedRun(c: Config, s: State, steps: seq<Step>)
    requires Each(s, ForcedLast()) && Each(s, Retries.Ledger(c)) && Legal(c, s, steps)
    ensures Each(After(c, s, steps), ForcedLast())
    decreases |steps|
  {
    if steps != [] {
      ForcedStep(c, s, steps[0]);
      Retries.LedgerStep(c, s, steps[0]);
      ForcedRun(c, Apply(c, s, steps[0]), steps[1..]);
    }
  }

  // ----- MX rotation ----------------------------------------------------------

  // The exchangers of every domain, the same during the whole run.
  type MxTable = string -> seq<string>

  // The exchanger attempt number k of an entry should go to.
  ghost predicate ServedBy(mx: MxTable, domain: string, k: nat, server: string) {
    && Dns.UsableList(domain, mx(domain))
    && server == Dns.HostAddress(domain, mx(domain), Dns.RoundRobin(k, |mx(domain)|))
  }

  ghost predicate RotationAt(mx: MxTable, p: Place, e: QueueEntry) {
    && (forall k :: 0 <= k < |e.trail| ==> ServedBy(mx, e.letter.recipientDomain, k, e.trail[k].server))
    && (!Terminal(p) && p != InFlight ==> ServedBy(mx, e.letter.recipientDomain, |e.trail|, e.mailServer))
    && Dns.UsableList(e.letter.recipientDomain, mx(e.letter.recipientDomain))
  }

  ghost function Rotation(mx: MxTable): Fact {
    (p: Place, e: QueueEntry) => RotationAt(mx, p, e)
  }

  // Direct mode, every lookup answered from the table: the listener's first
  // lookup and the one after each failed attempt.
  ghost predicate StableLookups(c: Config, s: State, steps: seq<Step>, mx: MxTable)
    requires Legal(c, s, steps)
    decreases |steps|
  {
    steps == [] || (LookupFrom(s, steps[0], mx) && StableLookups(c, Apply(c, s, steps[0]), steps[1..], mx))
  }

  ghost predicate LookupFrom(s: State, step: Step, mx: MxTable) {
    match step
    case Arrive(letter, server) => ServedBy(mx, letter.recipientDomain, 0, server)
    case AttemptFails(i, _, answer) =>
      i < |At(s, InFlight)| ==>
        answer == Dns.Records(mx(At(s, InFlight)[i].letter.recipientDomain))
    case _ => true
  }

  lemma RotationStep(c: Config, s: State, step: Step, mx: MxTable)
    requires !c.relayMode && Enabled(c, s, step) && LookupFrom(s, step, mx)
    requires Each(s, Retries.Ledger(c)) && Each(s, Rotation(mx))
    ensures Each(Apply(c, s, step), Rotation(mx))
  {
    hide Apply, Dns.UsableList, Dns.HostAddress;
    var m := MoveOf(c, s, step);
    if m.Shift? {
      var e := At(s, m.from)[m.i];
      assert Rotation(mx)(m.from, e);
      assert Retries.Ledger(c)(m.from, e);
      if step.AttemptFails? {
        RotationFails(c, s, step, mx);
      }
    }
    EachStep(c, s, step, Rotation(mx));
  }

  lemma NextServed(c: Config, e: QueueEntry, mx: MxTable)
    requires !c.relayMode && Dns.UsableList(e.letter.recipientDomain, mx(e.letter.recipientDomain))
    ensures var domain := e.letter.recipientDomain;
            ServedBy(mx, domain, e.errorCount, NextServer(c, e, Dns.Records(mx(domain))))
  {
    var domain := e.letter.recipientDomain;
    Dns.UsableListNeverFails(domain, mx(domain), e.errorCount);
  }

  // The entry after a failed attempt, the lookup answered from the table.
  lemma RotationAfter(c: Config, e: QueueEntry, code: int, mx: MxTable, now: int)
    requires !c.relayMode && Retries.LedgerAt(c, InFlight, e) && RotationAt(mx, InFlight, e)
    ensures var answer := Dns.Records(mx(e.letter.recipientDomain));
            match AfterFailure(c, e, code, answer, now)
            case Drop(d) => RotationAt(mx, Dropped, d)
            case Defer(d) => RotationAt(mx, Deferring, d)
  {
    hide ServedBy, NextServer, Dns.UsableList;
    NextServed(c, e.(errorCount := e.errorCount + 1, lastCode := code), mx);
  }

  lemma RotationFails(c: Config, s: State, step: Step, mx: MxTable)
    requires !c.relayMode && step.AttemptFails? && Enabled(c, s, step) && LookupFrom(s, step, mx)
    requires Retries.LedgerAt(c, InFlight, At(s, InFlight)[step.i])
    requires RotationAt(mx, InFlight, At(s, InFlight)[step.i])
    ensures RotationAt(mx, MoveOf(c, s, step).to, MoveOf(c, s, step).entry)
  {
    hide RotationAt, AfterFailure, Retries.LedgerAt;
    RotationAfter(c, At(s, InFlight)[step.i], step.code, mx, s.now);
  }

  lemma {:induction false} RotationRun(c: Config, s: State, steps: seq<Step>, mx: MxTable)
    requires !c.relayMode && Each(s, Retries.Ledger(c)) && Each(s, Rotation(mx))
    requires Legal(c, s, steps) && StableLookups(c, s, steps, mx)
    ensures Each(After(c, s, steps), Rotation(mx))
    decreases |steps|
  {
    if steps != [] {
      RotationStep(c, s, steps[0], mx);
      Retries.LedgerStep(c, s, steps[0]);
      RotationRun(c, Apply(c, s, steps[0]), steps[1..], mx);
    }
  }

  // MX rotation over a run: attempt k of an entry, flushed or not, goes to
  // exchanger k mod l of its domain.
  lemma AttemptsRotate(c: Config, now: int, steps: seq<Step>, mx: MxTable, p: Place, i: nat, k: nat)
    requires !c.relayMode && Legal(c, Start(now), steps) && StableLookups(c, Start(now), steps, mx)
    requires i < |At(After(c, Start(now), steps), p)|
    requires k < |At(After(c, Start(now), steps), p)[i].trail|
    ensures var e := At(After(c, Start(now), steps), p)[i];
            ServedBy(mx, e.letter.recipientDomain, k, e.trail[k].server)
    ensures var e := At(After(c, Start(now), steps), p)[i]; var domain := e.letter.recipientDomain;
            Dns.Resolves(domain, k, Dns.Records(mx(domain)), e.trail[k].server)
  {
    RotationRun(c, Start(now), steps, mx);
    var e := At(After(c, Start(now), steps), p)[i];
    var domain := e.letter.recipientDomain;
    assert Rotation(mx)(p, e);
    Dns.UsableListNeverFails(domain, mx(domain), k);
    Dns.LookupIff(domain, k, Dns.Records(mx(domain)), e.trail[k].server);
  }

  // ----- Relay mode -----------------------------------------------------------

  function Relayed(c: Config): Fact {
    (p: Place, e: QueueEntry) =>
      e.mailServer == c.relayServer && forall k :: 0 <= k < |e.trail| ==> e.trail[k].server == c.relayServer
  }

  lemma RelayedStep(c: Config, s: State, step: Step)
    requires c.relayMode && Enabled(c, s, step) && Each(s, Relayed(c))
    requires step.Arrive? ==> step.server == c.relayServer
    ensures Each(Apply(c, s, step), Relayed(c))
  {
    var m := MoveOf(c, s, step);
    if m.Shift? {
      assert Relayed(c)(m.from, At(s, m.from)[m.i]);
    }
    EachStep(c, s, step, Relayed(c));
  }

  lemma {:induction false} RelayedRun(c: Config, s: State, steps: seq<Step>)
    requires c.relayMode && Each(s, Relayed(c)) && Legal(c, s, steps)
    requires forall k :: 0 <= k < |steps| && steps[k].Arrive? ==> steps[k].server == c.relayServer
    ensures Each(After(c, s, steps), Relayed(c))
    decreases |steps|
  {
    if steps != [] {
      RelayedStep(c, s, steps[0]);
      RelayedRun(c, Apply(c, s, steps[0]), steps[1..]);
    }
  }

  // In relay mode every attempt of every entry goes to the relay server.
  lemma AttemptsGoToRelay(c: Config, now: int, steps: seq<Step>, p: Place, i: nat, k: nat)
    requires c.relayMode && Legal(c, Start(now), steps)
    requires forall k :: 0 <= k < |steps| && steps[k].Arrive? ==> steps[k].server == c.relayServer
    requires i < |At(After(c, Start(now), steps), p)|
    requires k < |At(After(c, Start(now), steps), p)[i].trail|
    ensures At(After(c, Start(now), steps), p)[i].trail[k].server == c.relayServer
  {
    RelayedRun(c, Start(now), steps);
    assert Relayed(c)(p, At(After(c, Start(now), steps), p)[i]);
  }

  // Any l consecutive attempts try every list position exactly once.
  lemma EveryExchangerOnce(
    c: Config, now: int, steps: seq<Step>, mx: MxTable, p: Place, i: nat, first: nat, position: nat)
    returns (k: nat)
    requires !c.relayMode && Legal(c, Start(now), steps) && StableLookups(c, Start(now), steps, mx)
    requires i < |At(After(c, Start(now), steps), p)|
    requires var e := At(After(c, Start(now), steps), p)[i]; var domain := e.letter.recipientDomain;
             first + |mx(domain)| <= |e.trail| && position < |mx(domain)|
    ensures var e := At(After(c, Start(now), steps), p)[i];
            var domain := e.letter.recipientDomain; var hosts := mx(domain);
            && first <= k < first + |hosts|
            && Dns.UsableList(domain, hosts)
            && e.trail[k].server == Dns.HostAddress(domain, hosts, position)
            && forall k' :: first <= k' < first + |hosts| && k' % |hosts| == position ==> k' == k
  {
    var e := At(After(c, Start(now), steps), p)[i];
    var l := |mx(e.letter.recipientDomain)|;
    k := Dns.WindowVisitsEachOnce(first, l, position);
    AttemptsRotate(c, now, steps, mx, p, i, k);
    forall k' | first <= k' < first + l && k' % l == position
      ensures k' == k
    {
      assert Dns.RoundRobin(k', l) == position;
    }
  }
}
