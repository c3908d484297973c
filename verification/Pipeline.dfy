// The delivery pipeline of mq.go and sender.go as a step relation: two bounded
// channels, the dispatcher (CloneMailers), the SendMail tasks, the retry task
// (StartErrorHandler) and the flusher (FlushErrors).
//
// Every entry is at one Place. A step is one atomic action of one task: it
// moves at most one entry, or changes the clock or the flusher's control state.
module Pipeline {
  import opened Wrappers
  import Dns

  // Channel capacities, MaxOutcomingConnections, DeferredMailMaxErrors,
  // DeferredMailDelay, RelayModeEnabled and RelayServer. Times and the delay are
  // in ticks of the clock, of which a second has any positive number.
  datatype Config = Config(
    mailCapacity: nat, errorCapacity: nat, senders: nat,
    maxErrors: nat, delay: int, relayMode: bool, relayServer: string, second: nat)

  // What the code needs of its capacities: buffered channels and one sender.
  predicate Buffered(c: Config) {
    c.mailCapacity >= 1 && c.errorCapacity >= 1 && c.senders >= 1
  }

  // The fields of a QueueEntry that nothing may change; data names the shared buffer.
  datatype Letter = Letter(
    sender: string, recipients: seq<string>, senderDomain: string,
    recipientDomain: string, messageId: string, data: nat)

  // One started delivery attempt.
  datatype Attempt = Attempt(start: int, server: string, forced: bool)

  // ticket, trail and flushedAt are the model's own bookkeeping: the identity
  // of the entry, its attempts so far, and how many there were when a flush
  // took it. The program never reads them.
  datatype QueueEntry = QueueEntry(
    ticket: nat, letter: Letter, mailServer: string, lastCode: int, errorCount: nat,
    queueTime: int, unqueueTime: int, trail: seq<Attempt>, flushedAt: Option<nat>)

  datatype Place =
    | MailQueue | DispatcherHand | InFlight | Deferring | ErrorQueue
    | RetrySleeping | RetryReady | FlusherHand | Sent | Dropped

  // Control state of FlushErrors: not running, at the loop test, blocked in
  // the receive, or holding an entry it has received.
  datatype Flusher = Off | Checking | Receiving | Holding

  // The entries at every place. A hand holds at most one.
  datatype Holdings = Holdings(
    mailQueue: seq<QueueEntry>, dispatcherHand: seq<QueueEntry>, inFlight: seq<QueueEntry>,
    deferring: seq<QueueEntry>, errorQueue: seq<QueueEntry>, retrySleeping: seq<QueueEntry>,
    retryReady: seq<QueueEntry>, flusherHand: seq<QueueEntry>, sent: seq<QueueEntry>, dropped: seq<QueueEntry>)
  {
    function Get(p: Place): seq<QueueEntry> {
      match p
      case MailQueue => mailQueue
      case DispatcherHand => dispatcherHand
      case InFlight => inFlight
      case Deferring => deferring
      case ErrorQueue => errorQueue
      case RetrySleeping => retrySleeping
      case RetryReady => retryReady
      case FlusherHand => flusherHand
      case Sent => sent
      case Dropped => dropped
    }

    function Put(p: Place, q: seq<QueueEntry>): Holdings {
      match p
      case MailQueue => this.(mailQueue := q)
      case DispatcherHand => this.(dispatcherHand := q)
      case InFlight => this.(inFlight := q)
      case Deferring => this.(deferring := q)
      case ErrorQueue => this.(errorQueue := q)
      case RetrySleeping => this.(retrySleeping := q)
      case RetryReady => this.(retryReady := q)
      case FlusherHand => this.(flusherHand := q)
      case Sent => this.(sent := q)
      case Dropped => this.(dropped := q)
    }
  }

  datatype State = State(at: Holdings, flusher: Flusher, now: int, pushed: seq<QueueEntry>)

  datatype Step =
    | Arrive(letter: Letter, server: string)
    | Tick(time: int)
    | DispatcherTakes
    | DispatcherSpawns
    | AttemptSucceeds(i: nat)
    | AttemptFails(i: nat, code: int, answer: Dns.MxAnswer)
    | SenderDefers(i: nat)
    | RetryTakes
    | RetryWakes
    | RetryPushes
    | FlushStarts
    | FlushChecks
    | FlushTakes
    | FlushPushes

  function At(s: State, p: Place): seq<QueueEntry> {
    s.at.Get(p)
  }

  function Start(now: int): State {
    State(Holdings([], [], [], [], [], [], [], [], [], []), Off, now, [])
  }

  // SenderLimiter: one token for every SendMail task that has not returned.
  function Tokens(s: State): nat {
    |At(s, InFlight)| + |At(s, Deferring)|
  }

  predicate Terminal(p: Place) {
    p == Sent || p == Dropped
  }

  // The entry a listener pushes: a QueueEntry with its counters at zero.
  function NewEntry(ticket: nat, letter: Letter, server: string): QueueEntry {
    QueueEntry(ticket, letter, server, 0, 0, 0, 0, [], None)
  }

  // The entry as its SendMail task starts the attempt.
  function Launched(e: QueueEntry, now: int): QueueEntry {
    e.(trail := e.trail + [Attempt(now, e.mailServer, e.flushedAt.Some?)])
  }

  // FlushErrors forces the error counter.
  function Forced(c: Config, e: QueueEntry): QueueEntry {
    e.(errorCount := c.maxErrors, flushedAt := Some(|e.trail|))
  }

  datatype Verdict = Drop(entry: QueueEntry) | Defer(entry: QueueEntry)

  // The server of the next attempt: the relay, the next exchanger, or the old one.
  function NextServer(c: Config, e: QueueEntry, answer: Dns.MxAnswer): string {
    if c.relayMode then c.relayServer
    else
      match Dns.MailServerFor(e.letter.recipientDomain, e.errorCount, answer)
      case Ok(server) => server
      case Err(_) => e.mailServer
  }

  // SendMail after a failed attempt, code being the parsed reply code.
  function AfterFailure(c: Config, e: QueueEntry, code: int, answer: Dns.MxAnswer, now: int): Verdict {
    if code / 100 == 5 then Drop(e)
    else
      var counted := e.(errorCount := e.errorCount + 1, lastCode := code);
      if counted.errorCount >= c.maxErrors then Drop(counted)
      else
        Defer(counted.(
          queueTime := now,
          unqueueTime := now + c.delay,
          mailServer := NextServer(c, counted, answer)))
  }

  predicate Enabled(c: Config, s: State, step: Step) {
    match step
    case Arrive(_, _) => |At(s, MailQueue)| < c.mailCapacity
    case Tick(_) => true
    case DispatcherTakes => At(s, MailQueue) != [] && At(s, DispatcherHand) == []
    case DispatcherSpawns => At(s, DispatcherHand) != [] && Tokens(s) < c.senders
    case AttemptSucceeds(i) => i < |At(s, InFlight)|
    case AttemptFails(i, _, _) => i < |At(s, InFlight)|
    case SenderDefers(i) => i < |At(s, Deferring)| && |At(s, ErrorQueue)| < c.errorCapacity
    case RetryTakes =>
      At(s, ErrorQueue) != [] && At(s, RetrySleeping) == [] && At(s, RetryReady) == []
    case RetryWakes => At(s, RetrySleeping) != [] && At(s, RetrySleeping)[0].unqueueTime <= s.now
    case RetryPushes => At(s, RetryReady) != [] && |At(s, MailQueue)| < c.mailCapacity
    case FlushStarts => s.flusher == Off
    case FlushChecks => s.flusher == Checking
    case FlushTakes => s.flusher == Receiving && At(s, ErrorQueue) != []
    case FlushPushes =>
      s.flusher == Holding && At(s, FlusherHand) != [] && |At(s, MailQueue)| < c.mailCapacity
  }

  // An entry leaves one place, possibly changed, and is appended at another.
  datatype Move = Stay | Shift(from: Place, i: nat, to: Place, entry: QueueEntry)

  function MoveOf(c: Config, s: State, step: Step): (m: Move)
    requires Enabled(c, s, step)
    ensures m.Shift? ==> m.i < |At(s, m.from)| && m.from != m.to && !Terminal(m.from)
  {
    match step
    case DispatcherTakes => Shift(MailQueue, 0, DispatcherHand, At(s, MailQueue)[0])
    case DispatcherSpawns =>
      Shift(DispatcherHand, 0, InFlight, Launched(At(s, DispatcherHand)[0], s.now))
    case AttemptSucceeds(i) => Shift(InFlight, i, Sent, At(s, InFlight)[i])
    case AttemptFails(i, code, answer) =>
      (match AfterFailure(c, At(s, InFlight)[i], code, answer, s.now)
       case Drop(e) => Shift(InFlight, i, Dropped, e)
       case Defer(e) => Shift(InFlight, i, Deferring, e))
    case SenderDefers(i) => Shift(Deferring, i, ErrorQueue, At(s, Deferring)[i])
    case RetryTakes => Shift(ErrorQueue, 0, RetrySleeping, At(s, ErrorQueue)[0])
    case RetryWakes => Shift(RetrySleeping, 0, RetryReady, At(s, RetrySleeping)[0])
    case RetryPushes => Shift(RetryReady, 0, MailQueue, At(s, RetryReady)[0])
    case FlushTakes => Shift(ErrorQueue, 0, FlusherHand, Forced(c, At(s, ErrorQueue)[0]))
    case FlushPushes => Shift(FlusherHand, 0, MailQueue, At(s, FlusherHand)[0])
    case _ => Stay
  }

  function RemoveAt(q: seq<QueueEntry>, i: nat): seq<QueueEntry>
    requires i < |q|
  {
    q[..i] + q[i + 1..]
  }

  function Relocate(s: State, m: Move): State
    requires m.Shift? ==> m.i < |At(s, m.from)| && m.from != m.to
  {
    match m
    case Stay => s
    case Shift(from, i, to, entry) =>
      s.(at := s.at.Put(from, RemoveAt(At(s, from), i)).Put(to, At(s, to) + [entry]))
  }

  function NextFlusher(s: State, step: Step): Flusher {
    match step
    case FlushStarts => Checking
    case FlushChecks => if At(s, ErrorQueue) != [] then Receiving else Off
    case FlushTakes => Holding
    case FlushPushes => Checking
    case _ => s.flusher
  }

  function Apply(c: Config, s: State, step: Step): State
    requires Enabled(c, s, step)
  {
    match step
    case Arrive(letter, server) =>
      var e := NewEntry(|s.pushed|, letter, server);
      s.(at := s.at.Put(MailQueue, At(s, MailQueue) + [e]), pushed := s.pushed + [e])
    case Tick(time) => s.(now := time)
    case _ => Relocate(s, MoveOf(c, s, step)).(flusher := NextFlusher(s, step))
  }

  // A step that moves an entry: how it leaves the two places, and all others as they were.
  lemma MoveFrame(s: State, m: Move)
    requires m.Shift? && m.i < |At(s, m.from)| && m.from != m.to
    ensures var t := Relocate(s, m);
            && At(t, m.from) == RemoveAt(At(s, m.from), m.i)
            && At(t, m.to) == At(s, m.to) + [m.entry]
            && forall p :: p != m.from && p != m.to ==> At(t, p) == At(s, p)
  {
    PutFrame(s.at, m.from, RemoveAt(At(s, m.from), m.i));
    PutFrame(s.at.Put(m.from, RemoveAt(At(s, m.from), m.i)), m.to, At(s, m.to) + [m.entry]);
  }

  lemma PutFrame(h: Holdings, p: Place, q: seq<QueueEntry>)
    ensures h.Put(p, q).Get(p) == q
    ensures forall p' :: p' != p ==> h.Put(p, q).Get(p') == h.Get(p')
  {
  }

  // A run: every step is enabled when it is taken.
  predicate Legal(c: Config, s: State, steps: seq<Step>)
    decreases |steps|
  {
    steps == [] || (Enabled(c, s, steps[0]) && Legal(c, Apply(c, s, steps[0]), steps[1..]))
  }

  function After(c: Config, s: State, steps: seq<Step>): State
    requires Legal(c, s, steps)
    decreases |steps|
  {
    if steps == [] then s else After(c, Apply(c, s, steps[0]), steps[1..])
  }

  lemma {:induction false} ExtendRun(c: Config, s: State, steps: seq<Step>, step: Step)
    requires Legal(c, s, steps) && Enabled(c, After(c, s, steps), step)
    ensures Legal(c, s, steps + [step])
    ensures After(c, s, steps + [step]) == Apply(c, After(c, s, steps), step)
    decreases |steps|
  {
    if steps == [] {
      assert (steps + [step])[1..] == [];
    } else {
      ExtendRun(c, Apply(c, s, steps[0]), steps[1..], step);
      assert (steps + [step])[1..] == steps[1..] + [step];
    }
  }

  // ----- Sums over all places -------------------------------------------------

  type Gauge = (Place, QueueEntry) -> nat

  function SumAt(g: Gauge, p: Place, q: seq<QueueEntry>): nat {
    if q == [] then 0 else g(p, q[0]) + SumAt(g, p, q[1..])
  }

  function Part(g: Gauge, s: State, p: Place): nat {
    SumAt(g, p, At(s, p))
  }

  function Total(g: Gauge, s: State): nat {
    Part(g, s, MailQueue) + Part(g, s, DispatcherHand) + Part(g, s, InFlight)
    + Part(g, s, Deferring) + Part(g, s, ErrorQueue) + Part(g, s, RetrySleeping)
    + Part(g, s, RetryReady) + Part(g, s, FlusherHand) + Part(g, s, Sent) + Part(g, s, Dropped)
  }

  lemma {:induction false} SumAtSplit(g: Gauge, p: Place, a: seq<QueueEntry>, b: seq<QueueEntry>)
    ensures SumAt(g, p, a + b) == SumAt(g, p, a) + SumAt(g, p, b)
  {
    if a == [] {
      assert a + b == b;
    } else {
      SumAtSplit(g, p, a[1..], b);
      assert (a + b)[1..] == a[1..] + b;
    }
  }

  lemma SumAtRemove(g: Gauge, p: Place, q: seq<QueueEntry>, i: nat)
    requires i < |q|
    ensures SumAt(g, p, q) == SumAt(g, p, RemoveAt(q, i)) + g(p, q[i])
  {
    SumAtSplit(g, p, q[..i], q[i + 1..]);
    SumAtSplit(g, p, q[..i], [q[i]] + q[i + 1..]);
    assert q == q[..i] + ([q[i]] + q[i + 1..]);
    assert ([q[i]] + q[i + 1..])[1..] == q[i + 1..];
  }

  lemma SumAtAppend(g: Gauge, p: Place, q: seq<QueueEntry>, e: QueueEntry)
    ensures SumAt(g, p, q + [e]) == SumAt(g, p, q) + g(p, e)
  {
    SumAtSplit(g, p, q, [e]);
    assert [e][1..] == [];
    assert SumAt(g, p, [e]) == g(p, e) + SumAt(g, p, []);
  }

  // One place written: the total changes by that place's sum.
  lemma TotalPut(g: Gauge, s: State, p: Place, q: seq<QueueEntry>)
    ensures Total(g, s.(at := s.at.Put(p, q))) + SumAt(g, p, At(s, p)) == Total(g, s) + SumAt(g, p, q)
  {
    var t := s.(at := s.at.Put(p, q));
    OtherParts(g, s, t, p);
    OnePartChanged(g, s, t, p);
  }

  lemma OnePartChanged(g: Gauge, s: State, t: State, p: Place)
    requires forall p' :: p' != p ==> Part(g, t, p') == Part(g, s, p')
    ensures Total(g, t) + Part(g, s, p) == Total(g, s) + Part(g, t, p)
  {
    match p
    case MailQueue =>
    case DispatcherHand =>
    case InFlight =>
    case Deferring =>
    case ErrorQueue =>
    case RetrySleeping =>
    case RetryReady =>
    case FlusherHand =>
    case Sent =>
    case Dropped =>
  }

  lemma OtherParts(g: Gauge, s: State, t: State, p: Place)
    requires forall p' :: p' != p ==> At(t, p') == At(s, p')
    ensures forall p' :: p' != p ==> Part(g, t, p') == Part(g, s, p')
  {
  }

  lemma TotalRelocate(g: Gauge, s: State, m: Move)
    requires m.Shift? && m.i < |At(s, m.from)| && m.from != m.to
    ensures Total(g, Relocate(s, m)) + g(m.from, At(s, m.from)[m.i]) == Total(g, s) + g(m.to, m.entry)
  {
    hide Total, SumAt;
    var mid := s.(at := s.at.Put(m.from, RemoveAt(At(s, m.from), m.i)));
    PutFrame(s.at, m.from, RemoveAt(At(s, m.from), m.i));
    TotalPut(g, s, m.from, RemoveAt(At(s, m.from), m.i));
    SumAtRemove(g, m.from, At(s, m.from), m.i);
    assert At(mid, m.to) == At(s, m.to);
    TotalPut(g, mid, m.to, At(s, m.to) + [m.entry]);
    SumAtAppend(g, m.to, At(s, m.to), m.entry);
  }

  lemma TotalArrive(g: Gauge, c: Config, s: State, step: Step)
    requires step.Arrive? && Enabled(c, s, step)
    ensures Total(g, Apply(c, s, step))
            == Total(g, s) + g(MailQueue, NewEntry(|s.pushed|, step.letter, step.server))
  {
    var e := NewEntry(|s.pushed|, step.letter, step.server);
    TotalPut(g, s, MailQueue, At(s, MailQueue) + [e]);
    SumAtAppend(g, MailQueue, At(s, MailQueue), e);
    var t := s.(at := s.at.Put(MailQueue, At(s, MailQueue) + [e]));
    assert forall p :: At(Apply(c, s, step), p) == At(t, p);
  }

  // Control state and clock do not matter to a total.
  lemma TotalSameEntries(g: Gauge, s: State, t: State)
    requires s.at == t.at
    ensures Total(g, s) == Total(g, t)
  {
  }

  lemma TotalEmpty(g: Gauge, s: State)
    requires forall p :: At(s, p) == []
    ensures Total(g, s) == 0
  {
  }

  // Every step but an arrival: what the moved entry adds and takes away.
  function Gain(g: Gauge, m: Move): nat {
    if m.Shift? then g(m.to, m.entry) else 0
  }

  function Loss(g: Gauge, s: State, m: Move): nat
    requires m.Shift? ==> m.i < |At(s, m.from)|
  {
    if m.Shift? then g(m.from, At(s, m.from)[m.i]) else 0
  }

  lemma ApplyRelocates(c: Config, s: State, step: Step)
    requires Enabled(c, s, step) && !step.Arrive?
    ensures Apply(c, s, step).at == Relocate(s, MoveOf(c, s, step)).at
    ensures Apply(c, s, step).pushed == s.pushed
  {
  }

  lemma TotalStep(g: Gauge, c: Config, s: State, step: Step)
    requires Enabled(c, s, step) && !step.Arrive?
    ensures Total(g, Apply(c, s, step)) + Loss(g, s, MoveOf(c, s, step))
            == Total(g, s) + Gain(g, MoveOf(c, s, step))
  {
    var m := MoveOf(c, s, step);
    ApplyRelocates(c, s, step);
    TotalMove(g, s, m, Apply(c, s, step));
  }

  lemma TotalMove(g: Gauge, s: State, m: Move, t: State)
    requires m.Shift? ==> m.i < |At(s, m.from)| && m.from != m.to
    requires t.at == Relocate(s, m).at
    ensures Total(g, t) + Loss(g, s, m) == Total(g, s) + Gain(g, m)
  {
    TotalSameEntries(g, Relocate(s, m), t);
    if m.Shift? {
      TotalRelocate(g, s, m);
    }
  }

  // ----- Facts that hold of every entry by itself -----------------------------

  type Fact = (Place, QueueEntry) -> bool

  ghost predicate Each(s: State, fact: Fact) {
    forall p: Place, i: nat :: i < |At(s, p)| ==> fact(p, At(s, p)[i])
  }

  lemma EachRelocate(s: State, m: Move, fact: Fact)
    requires m.Shift? && m.i < |At(s, m.from)| && m.from != m.to
    requires Each(s, fact) && fact(m.to, m.entry)
    ensures Each(Relocate(s, m), fact)
  {
    MoveFrame(s, m);
    EachFrame(s, m, Relocate(s, m), fact);
  }

  lemma EachFrame(s: State, m: Move, t: State, fact: Fact)
    requires m.Shift? && m.i < |At(s, m.from)| && m.from != m.to
    requires Each(s, fact) && fact(m.to, m.entry)
    requires At(t, m.from) == RemoveAt(At(s, m.from), m.i)
    requires At(t, m.to) == At(s, m.to) + [m.entry]
    requires forall p :: p != m.from && p != m.to ==> At(t, p) == At(s, p)
    ensures Each(t, fact)
  {
  }

  lemma EachArrive(c: Config, s: State, step: Step, fact: Fact)
    requires step.Arrive? && Enabled(c, s, step)
    requires Each(s, fact) && fact(MailQueue, NewEntry(|s.pushed|, step.letter, step.server))
    ensures Each(Apply(c, s, step), fact)
  {
    var t := Apply(c, s, step);
    forall p: Place, i: nat | i < |At(t, p)|
      ensures fact(p, At(t, p)[i])
    {
      if p == MailQueue {
        assert i < |At(s, p)| ==> At(t, p)[i] == At(s, p)[i];
      } else {
        assert At(t, p) == At(s, p);
      }
    }
  }

  // A step keeps a fact if what it puts down satisfies it.
  lemma EachStep(c: Config, s: State, step: Step, fact: Fact)
    requires Enabled(c, s, step) && Each(s, fact)
    requires step.Arrive? ==> fact(MailQueue, NewEntry(|s.pushed|, step.letter, step.server))
    requires MoveOf(c, s, step).Shift? ==>
               fact(MoveOf(c, s, step).to, MoveOf(c, s, step).entry)
    ensures Each(Apply(c, s, step), fact)
  {
    var t := Apply(c, s, step);
    if step.Arrive? {
      EachArrive(c, s, step, fact);
    } else {
      var m := MoveOf(c, s, step);
      var u := Relocate(s, m);
      if m.Shift? {
        EachRelocate(s, m, fact);
      }
      assert forall p :: At(t, p) == At(u, p);
    }
  }
}
