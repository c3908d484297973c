// The code of mq.go and sender.go as it runs: global channels that the tasks
// receive from and send to. Every method is what one goroutine does up to the
// next point where another can intervene; `blocked` means that it would wait
// on a channel or on the clock. Each method takes exactly one step of the pipeline
// (FlushErrors and AwaitDue, run alone, a legal sequence of steps).
module RelayTasks {
  import opened Wrappers
  import opened Pipeline
  import Dns

  class Relay {
    const conf: Config

    var mailChannel: seq<QueueEntry>
    var errorChannel: seq<QueueEntry>

    var popped: seq<QueueEntry>     // the entry CloneMailers holds
    var attempting: seq<QueueEntry> // SendMail tasks inside smtp.SendMail
    var deferring: seq<QueueEntry>  // SendMail tasks inside PushError
    var sleeping: seq<QueueEntry>   // the entry ExtractError holds back
    var extracted: seq<QueueEntry>  // the entry StartErrorHandler pushes
    var flushing: seq<QueueEntry>   // the entry FlushErrors holds
    var flusher: Flusher
    var clock: int

    ghost var sent: seq<QueueEntry>
    ghost var dropped: seq<QueueEntry>
    ghost var pushed: seq<QueueEntry>
    var tickets: nat

    // The abstract state these variables stand for.
    ghost function Snapshot(): State
      reads this
    {
      State(Holdings(mailChannel, popped, attempting, deferring, errorChannel, sleeping, extracted,
                    flushing, sent, dropped),
            flusher, clock, pushed)
    }

    ghost predicate Valid()
      reads this
    {
      tickets == |pushed|
    }

    constructor (conf: Config, now: int)
      ensures this.conf == conf && Valid() && Snapshot() == Start(now)
    {
      this.conf := conf;
      mailChannel, errorChannel := [], [];
      popped, attempting, deferring, sleeping, extracted, flushing := [], [], [], [], [], [];
      flusher, clock := Off, now;
      sent, dropped, pushed := [], [], [];
      tickets := 0;
    }

    // PushMail as a listener calls it.
    method PushMail(letter: Letter, server: string) returns (blocked: bool)
      requires Valid()
      modifies this
      ensures Valid()
      ensures blocked <==> !Enabled(conf, old(Snapshot()), Arrive(letter, server))
      ensures Snapshot() == if blocked then old(Snapshot())
                            else Apply(conf, old(Snapshot()), Arrive(letter, server))
    {
      blocked := |mailChannel| >= conf.mailCapacity;
      if !blocked {
        var entry := QueueEntry(tickets, letter, server, 0, 0, 0, 0, [], None);
        mailChannel := mailChannel + [entry];
        pushed := pushed + [entry];
        tickets := tickets + 1;
      }
    }

    // CloneMailers: PopMail.
    method PopMail() returns (blocked: bool)
      requires Valid()
      modifies this
      ensures Valid()
      ensures blocked <==> !Enabled(conf, old(Snapshot()), DispatcherTakes)
      ensures Snapshot() == if blocked then old(Snapshot())
                            else Apply(conf, old(Snapshot()), DispatcherTakes)
    {
      blocked := mailChannel == [] || popped != [];
      if !blocked {
        popped := [mailChannel[0]];
        mailChannel := mailChannel[1..];
        assert mailChannel == RemoveAt(old(mailChannel), 0);
      }
    }

    // CloneMailers: take a limiter token and start SendMail.
    method StartSendMail() returns (blocked: bool)
      requires Valid()
      modifies this
      ensures Valid()
      ensures blocked <==> !Enabled(conf, old(Snapshot()), DispatcherSpawns)
      ensures Snapshot() == if blocked then old(Snapshot())
                            else Apply(conf, old(Snapshot()), DispatcherSpawns)
    {
      blocked := popped == [] || |attempting| + |deferring| >= conf.senders;
      if !blocked {
        var entry := popped[0];
        entry := entry.(trail := entry.trail + [Attempt(clock, entry.mailServer, entry.flushedAt.Some?)]);
        popped := popped[1..];
        attempting := attempting + [entry];
        assert popped == RemoveAt(old(popped), 0);
      }
    }

    // SendMail's treatment of a failed attempt, code being the parsed reply code.
    method HandleFailure(failed: QueueEntry, code: int, answer: Dns.MxAnswer) returns (verdict: Verdict)
      ensures verdict == AfterFailure(conf, failed, code, answer, clock)
    {
      var entry := failed;
      if code / 100 == 5 {
        return Drop(entry);
      }
      entry := entry.(errorCount := entry.errorCount + 1);
      entry := entry.(lastCode := code);
      if entry.errorCount >= conf.maxErrors {
        return Drop(entry);
      }
      entry := entry.(queueTime := clock);
      entry := entry.(unqueueTime := entry.queueTime + conf.delay);
      var oldMx := entry.mailServer;
      if conf.relayMode {
        entry := entry.(mailServer := conf.relayServer);
      } else {
        var r := Dns.LookupMailServer(entry.letter.recipientDomain, entry.errorCount, answer);
        entry := entry.(mailServer := if r.Ok? then r.value else oldMx);
      }
      return Defer(entry);
    }

    // SendMail after smtp.SendMail has returned: no error, or a parsed reply code.
    method EndAttempt(i: nat, failure: Option<int>, answer: Dns.MxAnswer)
      requires Valid() && i < |attempting|
      modifies this
      ensures Valid()
      ensures Snapshot() == Apply(conf, old(Snapshot()),
                                  if failure.None? then AttemptSucceeds(i)
                                  else AttemptFails(i, failure.value, answer))
    {
      var entry := attempting[i];
      if failure.None? {
        sent := sent + [entry];
      } else {
        var verdict := HandleFailure(entry, failure.value, answer);
        if verdict.Drop? {
          dropped := dropped + [verdict.entry];
        } else {
          deferring := deferring + [verdict.entry];
        }
      }
      attempting := attempting[..i] + attempting[i + 1..];
    }

    // SendMail: PushError, and the token given back when it returns.
    method PushError(i: nat) returns (blocked: bool)
      requires Valid() && i < |deferring|
      modifies this
      ensures Valid()
      ensures blocked <==> !Enabled(conf, old(Snapshot()), SenderDefers(i))
      ensures Snapshot() == if blocked then old(Snapshot())
                            else Apply(conf, old(Snapshot()), SenderDefers(i))
    {
      blocked := |errorChannel| >= conf.errorCapacity;
      if !blocked {
        errorChannel := errorChannel + [deferring[i]];
        deferring := deferring[..i] + deferring[i + 1..];
      }
    }

    // ExtractError: the receive.
    method ReceiveError() returns (blocked: bool)
      requires Valid()
      modifies this
      ensures Valid()
      ensures blocked <==> !Enabled(conf, old(Snapshot()), RetryTakes)
      ensures Snapshot() == if blocked then old(Snapshot())
                            else Apply(conf, old(Snapshot()), RetryTakes)
    {
      blocked := errorChannel == [] || sleeping != [] || extracted != [];
      if !blocked {
        sleeping := sleeping + [errorChannel[0]];
        errorChannel := errorChannel[1..];
        assert errorChannel == RemoveAt(old(errorChannel), 0);
      }
    }

    // ExtractError, run alone after its receive: one-second sleeps until the
    // time of the entry has come.
    method AwaitDue() returns (ghost steps: seq<Step>)
      requires Valid() && |sleeping| == 1 && conf.second >= 1
      modifies this
      ensures Valid() && sleeping == [] && extracted == old(extracted) + old(sleeping)
      ensures Legal(conf, old(Snapshot()), steps)
      ensures Snapshot() == After(conf, old(Snapshot()), steps)
      ensures old(clock) <= clock && old(sleeping)[0].unqueueTime <= clock
      ensures clock > old(clock) ==> clock < old(sleeping)[0].unqueueTime + conf.second
      ensures exists n: nat :: clock == old(clock) + n * conf.second
    {
      NoSteps(conf, Snapshot());
      hide Legal, After;
      steps := [];
      ghost var sleeps: nat := 0;
      while sleeping[0].unqueueTime > clock
        invariant Valid() && sleeping == old(sleeping) && extracted == old(extracted)
        invariant Legal(conf, old(Snapshot()), steps)
        invariant Snapshot() == After(conf, old(Snapshot()), steps)
        invariant clock == old(clock) + sleeps * conf.second && old(clock) <= clock
        invariant clock > old(clock) ==> clock < sleeping[0].unqueueTime + conf.second
        decreases sleeping[0].unqueueTime - clock
      {
        steps := SleepSecond(steps, old(Snapshot()));
        assert (sleeps + 1) * conf.second == sleeps * conf.second + conf.second;
        sleeps := sleeps + 1;
      }
      ExtendRun(conf, old(Snapshot()), steps, RetryWakes);
      extracted := extracted + sleeping;
      assert RemoveAt(sleeping, 0) == [];
      sleeping := [];
      steps := steps + [RetryWakes];
    }

    method SleepSecond(ghost steps: seq<Step>, ghost origin: State) returns (ghost longer: seq<Step>)
      requires Valid() && Legal(conf, origin, steps) && Snapshot() == After(conf, origin, steps)
      modifies `clock
      ensures clock == old(clock) + conf.second
      ensures Legal(conf, origin, longer) && Snapshot() == After(conf, origin, longer)
    {
      ExtendRun(conf, origin, steps, Tick(clock + conf.second));
      clock := clock + conf.second;
      longer := steps + [Tick(clock)];
    }

    // StartErrorHandler: push the extracted entry back to the mail channel.
    method PushRetry() returns (blocked: bool)
      requires Valid()
      modifies this
      ensures Valid()
      ensures blocked <==> !Enabled(conf, old(Snapshot()), RetryPushes)
      ensures Snapshot() == if blocked then old(Snapshot())
                            else Apply(conf, old(Snapshot()), RetryPushes)
    {
      blocked := extracted == [] || |mailChannel| >= conf.mailCapacity;
      if !blocked {
        mailChannel := mailChannel + [extracted[0]];
        extracted := extracted[1..];
        assert extracted == RemoveAt(old(extracted), 0);
      }
    }

    ghost function ForcedAll(entries: seq<QueueEntry>): seq<QueueEntry> {
      seq(|entries|, i requires 0 <= i < |entries| => Forced(conf, entries[i]))
    }

    // FlushErrors, run alone: it moves entries until the error channel is empty
    // or the mail channel is full, in which case it keeps one entry in hand.
    method FlushErrors() returns (ghost steps: seq<Step>)
      requires Valid() && flusher == Off && flushing == []
      modifies this
      ensures Valid()
      ensures Legal(conf, old(Snapshot()), steps)
      ensures Snapshot() == After(conf, old(Snapshot()), steps)
      ensures mailChannel + flushing + ForcedAll(errorChannel)
              == old(mailChannel) + ForcedAll(old(errorChannel))
      ensures flusher == Off ==> errorChannel == [] && flushing == []
      ensures flusher != Off ==> flusher == Holding && |flushing| == 1 && |mailChannel| >= conf.mailCapacity
    {
      steps := [];
      ExtendRun(conf, Snapshot(), steps, FlushStarts);
      flusher := Checking;
      steps := steps + [FlushStarts];
      while |errorChannel| > 0
        invariant Valid() && flusher == Checking && flushing == []
        invariant Legal(conf, old(Snapshot()), steps)
        invariant Snapshot() == After(conf, old(Snapshot()), steps)
        invariant mailChannel + ForcedAll(errorChannel) == old(mailChannel) + ForcedAll(old(errorChannel))
        decreases |errorChannel|
      {
        ghost var before := mailChannel + ForcedAll(errorChannel);
        steps := Receive(steps, old(Snapshot()));
        assert mailChannel + flushing + ForcedAll(errorChannel) == before;
        if |mailChannel| >= conf.mailCapacity {
          return;
        }
        steps := PushFlushed(steps, old(Snapshot()));
      }
      ExtendRun(conf, old(Snapshot()), steps, FlushChecks);
      flusher := Off;
      steps := steps + [FlushChecks];
    }

    // One receive of FlushErrors with the forced error counter.
    method Receive(ghost steps: seq<Step>, ghost origin: State) returns (ghost longer: seq<Step>)
      requires Valid() && flusher == Checking && flushing == [] && errorChannel != []
      requires Legal(conf, origin, steps) && Snapshot() == After(conf, origin, steps)
      modifies this
      ensures Valid() && flusher == Holding && flushing == [Forced(conf, old(errorChannel)[0])]
      ensures errorChannel == old(errorChannel)[1..] && mailChannel == old(mailChannel)
      ensures Legal(conf, origin, longer) && Snapshot() == After(conf, origin, longer)
    {
      hide Legal, After;
      ExtendRun(conf, origin, steps, FlushChecks);
      longer := steps + [FlushChecks];
      flusher := Receiving;
      ExtendRun(conf, origin, longer, FlushTakes);
      longer := longer + [FlushTakes];
      var entry := errorChannel[0];
      errorChannel := errorChannel[1..];
      entry := entry.(errorCount := conf.maxErrors, flushedAt := Some(|entry.trail|));
      flushing := [entry];
      flusher := Holding;
      assert errorChannel == RemoveAt(old(errorChannel), 0);
    }

    // The send of FlushErrors.
    method PushFlushed(ghost steps: seq<Step>, ghost origin: State) returns (ghost longer: seq<Step>)
      requires Valid() && flusher == Holding && |flushing| == 1 && |mailChannel| < conf.mailCapacity
      requires Legal(conf, origin, steps) && Snapshot() == After(conf, origin, steps)
      modifies this
      ensures Valid() && flusher == Checking && flushing == []
      ensures errorChannel == old(errorChannel) && mailChannel == old(mailChannel) + old(flushing)
      ensures Legal(conf, origin, longer) && Snapshot() == After(conf, origin, longer)
    {
      ExtendRun(conf, origin, steps, FlushPushes);
      longer := steps + [FlushPushes];
      mailChannel := mailChannel + flushing;
      flushing := [];
      flusher := Checking;
      assert RemoveAt(old(flushing), 0) == [];
    }
  }

  lemma NoSteps(c: Config, s: State)
    ensures Legal(c, s, []) && After(c, s, []) == s
  {
  }
}
