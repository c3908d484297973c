// Conservation: whatever the tasks do, an entry pushed by a listener is at one
// place, and nothing changes the letter it carries.
module Conservation {
  import opened Pipeline

  function TicketGauge(id: nat): Gauge {
    (p: Place, e: QueueEntry) => if e.ticket == id then 1 else 0
  }

  // How many entries with this ticket the whole system holds.
  function Copies(s: State, id: nat): nat {
    Total(TicketGauge(id), s)
  }

  function SameLetter(pushed: seq<QueueEntry>): Fact {
    (p: Place, e: QueueEntry) => e.ticket < |pushed| && e.letter == pushed[e.ticket].letter
  }

  ghost predicate Conserved(s: State) {
    && (forall id: nat :: Copies(s, id) == if id < |s.pushed| then 1 else 0)
    && Each(s, SameLetter(s.pushed))
  }

  lemma CopiesStep(c: Config, s: State, step: Step, id: nat)
    requires Enabled(c, s, step) && Each(s, SameLetter(s.pushed))
    ensures Copies(Apply(c, s, step), id)
            == Copies(s, id) + if step.Arrive? && id == |s.pushed| then 1 else 0
  {
    var g := TicketGauge(id);
    if step.Arrive? {
      TotalArrive(g, c, s, step);
    } else {
      TotalStep(g, c, s, step);
      TicketKept(c, s, step, id);
    }
  }

  lemma TicketKept(c: Config, s: State, step: Step, id: nat)
    requires Enabled(c, s, step) && !step.Arrive?
    ensures Gain(TicketGauge(id), MoveOf(c, s, step)) == Loss(TicketGauge(id), s, MoveOf(c, s, step))
  {
  }

  lemma SameLetterStep(c: Config, s: State, step: Step)
    requires Enabled(c, s, step) && Each(s, SameLetter(s.pushed))
    ensures Each(Apply(c, s, step), SameLetter(Apply(c, s, step).pushed))
  {
    var t := Apply(c, s, step);
    var later := SameLetter(t.pushed);
    assert Each(s, later) by {
      forall p: Place, i: nat | i < |At(s, p)|
        ensures later(p, At(s, p)[i])
      {
        assert SameLetter(s.pushed)(p, At(s, p)[i]);
      }
    }
    EachStep(c, s, step, later);
  }

  lemma ConservedStep(c: Config, s: State, step: Step)
    requires Enabled(c, s, step) && Conserved(s)
    ensures Conserved(Apply(c, s, step))
  {
    var t := Apply(c, s, step);
    forall id: nat
      ensures Copies(t, id) == if id < |t.pushed| then 1 else 0
    {
      CopiesStep(c, s, step, id);
    }
    SameLetterStep(c, s, step);
  }

  // The letters the listeners pushed during a run, in order.
  function Arrivals(steps: seq<Step>): seq<Letter> {
    if steps == [] then []
    else (if steps[0].Arrive? then [steps[0].letter] else []) + Arrivals(steps[1..])
  }

  function Letters(entries: seq<QueueEntry>): seq<Letter> {
    seq(|entries|, i requires 0 <= i < |entries| => entries[i].letter)
  }

  lemma {:induction false} ConservedRun(c: Config, s: State, steps: seq<Step>)
    requires Conserved(s) && Legal(c, s, steps)
    ensures Conserved(After(c, s, steps))
    ensures Letters(After(c, s, steps).pushed) == Letters(s.pushed) + Arrivals(steps)
    decreases |steps|
  {
    if steps != [] {
      var t := Apply(c, s, steps[0]);
      ConservedStep(c, s, steps[0]);
      ConservedRun(c, t, steps[1..]);
      assert Letters(t.pushed)
          == Letters(s.pushed) + (if steps[0].Arrive? then [steps[0].letter] else []);
    }
  }

  lemma StartConserved(now: int)
    ensures Conserved(Start(now))
  {
    var s := Start(now);
    assert forall p :: At(s, p) == [];
    forall id: nat
      ensures Copies(s, id) == 0
    {
      TotalEmpty(TicketGauge(id), s);
    }
  }

  // ----- Exactly one place ----------------------------------------------------

  ghost predicate Holds(s: State, p: Place, i: nat, id: nat) {
    i < |At(s, p)| && At(s, p)[i].ticket == id
  }

  lemma PartWithinTotal(g: Gauge, s: State, p: Place)
    ensures Part(g, s, p) <= Total(g, s)
  {
  }

  lemma SomewhereIfCounted(id: nat, p: Place, q: seq<QueueEntry>)
    requires SumAt(TicketGauge(id), p, q) > 0
    ensures exists i :: 0 <= i < |q| && q[i].ticket == id
  {
  }

  // Two positions with one ticket are the same position.
  lemma NoSecondHolder(s: State, p: Place, i: nat, p': Place, i': nat, id: nat)
    requires Holds(s, p, i, id) && Holds(s, p', i', id) && Copies(s, id) <= 1
    ensures p == p' && i == i'
  {
    if p != p' {
      NotTwoPlaces(s, p, i, p', i', id);
    } else if i != i' {
      NotTwicePlaced(s, p, i, i', id);
    }
  }

  lemma NotTwoPlaces(s: State, p: Place, i: nat, p': Place, i': nat, id: nat)
    requires Holds(s, p, i, id) && Holds(s, p', i', id) && p != p'
    ensures Copies(s, id) >= 2
  {
    var rest := s.(at := s.at.Put(p, RemoveAt(At(s, p), i)));
    PutFrame(s.at, p, RemoveAt(At(s, p), i));
    OneLess(TicketGauge(id), s, p, i, rest);
    PartWithinTotal(TicketGauge(id), rest, p');
    CountedHere(At(rest, p'), p', i', id);
  }

  lemma NotTwicePlaced(s: State, p: Place, i: nat, i': nat, id: nat)
    requires Holds(s, p, i, id) && Holds(s, p, i', id) && i != i'
    ensures Copies(s, id) >= 2
  {
    var q := At(s, p);
    var rest := s.(at := s.at.Put(p, RemoveAt(q, i)));
    PutFrame(s.at, p, RemoveAt(q, i));
    OneLess(TicketGauge(id), s, p, i, rest);
    PartWithinTotal(TicketGauge(id), rest, p);
    var k := if i' < i then i' else i' - 1;
    assert RemoveAt(q, i)[k] == q[i'];
    CountedHere(RemoveAt(q, i), p, k, id);
  }

  lemma CountedHere(q: seq<QueueEntry>, p: Place, i: nat, id: nat)
    requires i < |q| && q[i].ticket == id
    ensures SumAt(TicketGauge(id), p, q) >= 1
  {
    SumAtRemove(TicketGauge(id), p, q, i);
  }

  lemma OneLess(g: Gauge, s: State, p: Place, i: nat, rest: State)
    requires i < |At(s, p)| && g(p, At(s, p)[i]) == 1
    requires rest == s.(at := s.at.Put(p, RemoveAt(At(s, p), i)))
    ensures Total(g, rest) + 1 == Total(g, s)
  {
    SumAtRemove(g, p, At(s, p), i);
    TotalPut(g, s, p, RemoveAt(At(s, p), i));
  }

  // The conservation theorem: at every moment of every run, every letter pushed
  // so far is carried, unchanged, by one entry at one place.
  lemma ExactlyOnePlace(c: Config, now: int, steps: seq<Step>, id: nat) returns (p: Place, i: nat)
    requires Legal(c, Start(now), steps) && id < |Arrivals(steps)|
    ensures Holds(After(c, Start(now), steps), p, i, id)
    ensures At(After(c, Start(now), steps), p)[i].letter == Arrivals(steps)[id]
    ensures forall p', i' :: Holds(After(c, Start(now), steps), p', i', id) ==> p' == p && i' == i
  {
    StartConserved(now);
    ConservedRun(c, Start(now), steps);
    var s := After(c, Start(now), steps);
    assert Letters(s.pushed) == Arrivals(steps);
    assert Copies(s, id) == 1;
    p := PlaceCounted(s, id);
    SomewhereIfCounted(id, p, At(s, p));
    i :| 0 <= i < |At(s, p)| && At(s, p)[i].ticket == id;
    assert SameLetter(s.pushed)(p, At(s, p)[i]);
    assert Letters(s.pushed)[id] == s.pushed[id].letter;
    forall p', i' | Holds(s, p', i', id)
      ensures p' == p && i' == i
    {
      NoSecondHolder(s, p, i, p', i', id);
    }
  }

  lemma PlaceCounted(s: State, id: nat) returns (p: Place)
    requires Copies(s, id) > 0
    ensures Part(TicketGauge(id), s, p) > 0
  {
    var g := TicketGauge(id);
    p := if Part(g, s, MailQueue) > 0 then MailQueue
         else if Part(g, s, DispatcherHand) > 0 then DispatcherHand
         else if Part(g, s, InFlight) > 0 then InFlight
         else if Part(g, s, Deferring) > 0 then Deferring
         else if Part(g, s, ErrorQueue) > 0 then ErrorQueue
         else if Part(g, s, RetrySleeping) > 0 then RetrySleeping
         else if Part(g, s, RetryReady) > 0 then RetryReady
         else if Part(g, s, FlusherHand) > 0 then FlusherHand
         else if Part(g, s, Sent) > 0 then Sent
         else Dropped;
  }

  // Nothing carries a ticket that was never handed out.
  lemma NoStrangers(c: Config, now: int, steps: seq<Step>, p: Place, i: nat)
    requires Legal(c, Start(now), steps) && i < |At(After(c, Start(now), steps), p)|
    ensures At(After(c, Start(now), steps), p)[i].ticket < |Arrivals(steps)|
  {
    StartConserved(now);
    ConservedRun(c, Start(now), steps);
    var s := After(c, Start(now), steps);
    assert SameLetter(s.pushed)(p, At(s, p)[i]);
    assert Letters(s.pushed) == Arrivals(steps);
  }

  // ----- Order ----------------------------------------------------------------

  // What a step puts into a place and takes out of it.
  function Enters(c: Config, s: State, step: Step, p: Place): seq<QueueEntry>
    requires Enabled(c, s, step)
  {
    if step.Arrive? then (if p == MailQueue then [NewEntry(|s.pushed|, step.letter, step.server)] else [])
    else
      var m := MoveOf(c, s, step);
      if m.Shift? && m.to == p then [m.entry] else []
  }

  function Leaves(c: Config, s: State, step: Step, p: Place): seq<QueueEntry>
    requires Enabled(c, s, step)
  {
    var m := MoveOf(c, s, step);
    if m.Shift? && m.from == p then [At(s, p)[m.i]] else []
  }

  function Entered(c: Config, s: State, steps: seq<Step>, p: Place): seq<QueueEntry>
    requires Legal(c, s, steps)
    decreases |steps|
  {
    if steps == [] then [] else Enters(c, s, steps[0], p) + Entered(c, Apply(c, s, steps[0]), steps[1..], p)
  }

  function Left(c: Config, s: State, steps: seq<Step>, p: Place): seq<QueueEntry>
    requires Legal(c, s, steps)
    decreases |steps|
  {
    if steps == [] then [] else Leaves(c, s, steps[0], p) + Left(c, Apply(c, s, steps[0]), steps[1..], p)
  }

  // The two channels.
  predicate Channel(p: Place) {
    p == MailQueue || p == ErrorQueue
  }

  lemma ChannelStep(c: Config, s: State, step: Step, p: Place)
    requires Enabled(c, s, step) && Channel(p)
    ensures At(s, p) + Enters(c, s, step, p) == Leaves(c, s, step, p) + At(Apply(c, s, step), p)
  {
    if step.Arrive? {
      PutFrame(s.at, MailQueue, At(s, MailQueue) + [NewEntry(|s.pushed|, step.letter, step.server)]);
    } else {
      ApplyRelocates(c, s, step);
      var m := MoveOf(c, s, step);
      if m.Shift? {
        MoveFrame(s, m);
        ChannelHead(c, s, step, p);
      }
    }
  }

  // Only the oldest entry of a channel is received.
  lemma ChannelHead(c: Config, s: State, step: Step, p: Place)
    requires Enabled(c, s, step) && Channel(p)
    ensures var m := MoveOf(c, s, step);
            m.Shift? && m.from == p ==> m.i == 0 && At(s, p) == [At(s, p)[0]] + RemoveAt(At(s, p), 0)
  {
  }

  // In every run the entries leave each channel in the order in which they entered.
  lemma {:induction false} FirstInFirstOut(c: Config, s: State, steps: seq<Step>, p: Place)
    requires Legal(c, s, steps) && Channel(p)
    ensures At(s, p) + Entered(c, s, steps, p) == Left(c, s, steps, p) + At(After(c, s, steps), p)
    decreases |steps|
  {
    hide Enabled, Apply, Enters, Leaves;
    if steps != [] {
      var t := Apply(c, s, steps[0]);
      ChannelStep(c, s, steps[0], p);
      FirstInFirstOut(c, t, steps[1..], p);
      var x, y := Enters(c, s, steps[0], p), Entered(c, t, steps[1..], p);
      assert At(s, p) + (x + y) == (At(s, p) + x) + y;
      var u, v := Leaves(c, s, steps[0], p), Left(c, t, steps[1..], p);
      assert (u + At(t, p)) + y == u + (At(t, p) + y);
      assert u + (v + At(After(c, s, steps), p)) == (u + v) + At(After(c, s, steps), p);
    }
  }
}
