// Whole runs of a session: the invariant of section 4.1.4 of RFC 5321, and what
// a Handler call says about the commands before it.
module SessionHistory {
  import opened Wrappers
  import opened Text
  import opened Session
  import opened Addressing

  // ----- The invariant --------------------------------------------------------

  function RecipientBound(c: Config): int {
    if c.maxRecipients < 0 then 0 else c.maxRecipients
  }

  ghost predicate Orderly(c: Config, s: State) {
    && (s.envelope.Some? ==>
          && s.peer.heloName != ""
          && (c.forceTls ==> s.tls)
          && |s.envelope.value.recipients| <= RecipientBound(c)
          && s.envelope.value.data == "")
    && (s.peer.username != "" ==> s.tls || c.enableXclient)
    && (s.tls ==> c.hasTls)
    && s.peer.tls == s.tls
  }

  lemma GreetingOrderly(c: Config, s: State, cmd: Command, a: Answers)
    requires Orderly(c, s)
    requires |cmd.fields| >= 2 ==> cmd.fields[1] != ""
    ensures Orderly(c, Helo(c, s, cmd, a).state) && Orderly(c, Ehlo(c, s, cmd, a).state)
    ensures Helo(c, s, cmd, a).state.tls == s.tls && Ehlo(c, s, cmd, a).state.tls == s.tls
  {
  }

  lemma EnvelopeCommandsOrderly(c: Config, s: State, cmd: Command, a: Answers)
    requires Orderly(c, s)
    ensures Orderly(c, Mail(c, s, cmd, a).state) && Orderly(c, Rcpt(c, s, cmd, a).state)
    ensures Mail(c, s, cmd, a).state.tls == s.tls && Rcpt(c, s, cmd, a).state.tls == s.tls
  {
  }

  lemma StartTlsOrderly(c: Config, s: State, a: Answers)
    requires Orderly(c, s)
    ensures Orderly(c, StartTls(c, s, a).state)
    ensures s.tls ==> StartTls(c, s, a).state.tls
  {
  }

  // DATA drops the envelope exactly when it sends a second reply.
  lemma DataChanges(c: Config, s: State, a: Answers)
    ensures |Data(c, s, a).replies| == 2 ==> Data(c, s, a).state == Reset(s)
    ensures |Data(c, s, a).replies| != 2 ==> Data(c, s, a).state == s
  {
    hide Decimal, Extensions;
  }

  // AUTH changes only who the peer is, and only once TLS is on.
  lemma AuthChanges(c: Config, s: State, cmd: Command, a: Answers)
    ensures var t := Auth(c, s, cmd, a).state;
            && t.envelope == s.envelope && t.tls == s.tls
            && t.peer == s.peer.(username := t.peer.username, password := t.peer.password)
            && (t.peer.username != s.peer.username ==> s.tls && c.hasAuthenticator)
    ensures Auth(c, s, cmd, a).delivery == None
  {
    hide AuthPlain, AuthLogin, ToUpper;
    DialogueChanges(s, a);
  }

  lemma DialogueChanges(s: State, a: Answers)
    ensures forall inline :: CredentialsOnly(s, AuthPlain(s, inline, a))
    ensures CredentialsOnly(s, AuthLogin(s, a))
  {
    hide Split;
  }

  predicate CredentialsOnly(s: State, o: Outcome) {
    && o.delivery == None
    && o.state == s.(peer := s.peer.(username := o.state.peer.username, password := o.state.peer.password))
  }

  // XCLIENT changes only the peer's names, and only when it is enabled.
  lemma XclientChanges(c: Config, s: State, cmd: Command, a: Answers)
    ensures var t := Xclient(c, s, cmd, a).state;
            && t.envelope == s.envelope && t.tls == s.tls && t.peer.tls == s.peer.tls
            && (t.peer != s.peer ==> c.enableXclient)
            && (s.peer.heloName != "" ==> t.peer.heloName != "")
    ensures Xclient(c, s, cmd, a).delivery == None
  {
    hide OverrideAll, Welcome;
    var o := OverrideAll(Override("", "", NoProtocol), if cmd.fields == [] then [] else cmd.fields[1..]);
    if o.Some? {
      WelcomeKeeps(c, s.(peer := Overridden(s.peer, o.value)), a);
    }
  }

  lemma WelcomeKeeps(c: Config, s: State, a: Answers)
    ensures var o := Welcome(c, s, a);
            o.state == s.(closed := o.state.closed) && o.delivery == None
  {
  }

  lemma DispatchOrderly(c: Config, s: State, cmd: Command, a: Answers)
    requires Orderly(c, s)
    requires |cmd.fields| >= 2 ==> cmd.fields[1] != ""
    ensures Orderly(c, Dispatch(c, s, cmd, a).state)
    ensures s.tls ==> Dispatch(c, s, cmd, a).state.tls
  {
    hide Helo, Ehlo, Mail, Rcpt, StartTls, Data, Auth, Xclient;
    GreetingOrderly(c, s, cmd, a);
    EnvelopeCommandsOrderly(c, s, cmd, a);
    StartTlsOrderly(c, s, a);
    DataChanges(c, s, a);
    AuthChanges(c, s, cmd, a);
    XclientChanges(c, s, cmd, a);
  }

  // Every command keeps the invariant, and TLS is never given up.
  lemma ReactOrderly(c: Config, s: State, event: Event)
    requires Orderly(c, s)
    ensures Orderly(c, React(c, s, event).state)
    ensures s.tls ==> React(c, s, event).state.tls
  {
    if event.Line? {
      WordsSolid(event.line);
      DispatchOrderly(c, s, ParseLine(event.line), event.answers);
    }
  }

  lemma {:induction false} SessionInvariant(c: Config, s: State, events: seq<Event>)
    requires Orderly(c, s)
    ensures Orderly(c, Play(c, s, events).0)
    ensures s.tls ==> Play(c, s, events).0.tls
    decreases |events|
  {
    if events != [] {
      ReactOrderly(c, s, events[0]);
      SessionInvariant(c, React(c, s, events[0]).state, events[1..]);
    }
  }

  lemma NewStateOrderly(c: Config)
    ensures Orderly(c, NewState(c))
  {
  }

  // A completed STARTTLS leaves no envelope, but the greeting before it stays
  // valid: the server does not ask for a new one.
  lemma StartTlsDropsEnvelope(c: Config, s: State, line: string, a: Answers)
    requires ParseLine(line).action == "STARTTLS" && !s.tls && Handle(c, s, line, a).state.tls
    ensures Handle(c, s, line, a).state.envelope == None
    ensures Handle(c, s, line, a).state.peer.heloName == s.peer.heloName
  {
  }

  // ----- What the replies say -------------------------------------------------

  predicate IsCommand(e: Entry, action: string) {
    e.event.Line? && ParseLine(e.event.line).action == action
  }

  predicate Answered(replies: seq<Reply>, code: int) {
    |replies| == 1 && replies[0].code == code
  }

  predicate MailAccepted(e: Entry) {
    IsCommand(e, "MAIL") && Answered(e.replies, 250) && AddressOf(ParseLine(e.event.line)).Some?
  }

  predicate RcptAccepted(e: Entry) {
    IsCommand(e, "RCPT") && Answered(e.replies, 250) && AddressOf(ParseLine(e.event.line)).Some?
  }

  function AddressIn(e: Entry): string
    requires e.event.Line? && AddressOf(ParseLine(e.event.line)).Some?
  {
    AddressOf(ParseLine(e.event.line)).value
  }

  // The commands that end a mail transaction: RSET, a greeting with a name, a
  // completed STARTTLS, a message that was read to its end.
  predicate CommandEnds(cmd: Command, replies: seq<Reply>) {
    || cmd.action == "RSET"
    || ((cmd.action == "HELO" || cmd.action == "EHLO") && |cmd.fields| >= 2)
    || (cmd.action == "STARTTLS" && Answered(replies, 220))
    || (cmd.action == "DATA" && |replies| == 2)
  }

  // So does an over-long line.
  predicate EndsTransaction(e: Entry) {
    e.event.Line? ==> CommandEnds(ParseLine(e.event.line), e.replies)
  }

  // Addresses of the RCPT commands answered 250, in order.
  function AcceptedRcpts(tr: seq<Entry>): seq<string> {
    if tr == [] then []
    else
      var last := tr[|tr| - 1];
      AcceptedRcpts(tr[..|tr| - 1]) + if RcptAccepted(last) then [AddressIn(last)] else []
  }

  // A refusal may carry code 250; then the answer does not tell, the callback does.
  predicate MailTaken(e: Entry) {
    MailAccepted(e) && e.event.answers.sender.None?
  }

  predicate RcptTaken(e: Entry) {
    RcptAccepted(e) && e.event.answers.recipient.None?
  }

  // Addresses of those RCPT commands that no RecipientChecker refused.
  function TakenRcpts(tr: seq<Entry>): seq<string> {
    if tr == [] then []
    else
      var last := tr[|tr| - 1];
      TakenRcpts(tr[..|tr| - 1]) + if RcptTaken(last) then [AddressIn(last)] else []
  }

  // No RCPT answered 250 was a refusal.
  ghost predicate AnswersAreTrue(tr: seq<Entry>) {
    forall j :: 0 <= j < |tr| && RcptAccepted(tr[j]) ==> RcptTaken(tr[j])
  }

  // The replies tell the recipients exactly if they are true.
  lemma {:induction false} TakenIsAcceptedIff(tr: seq<Entry>)
    ensures |TakenRcpts(tr)| <= |AcceptedRcpts(tr)|
    ensures TakenRcpts(tr) == AcceptedRcpts(tr) <==> AnswersAreTrue(tr)
  {
    if tr != [] {
      hide AnswersAreTrue, RcptAccepted, RcptTaken, TakenRcpts, AcceptedRcpts;
      var front := tr[..|tr| - 1];
      TakenIsAcceptedIff(front);
      TrueOfFront(tr);
      var taken, accepted := LastRcpt(tr);
      AppendBoth(TakenRcpts(front), AcceptedRcpts(front), taken, accepted);
    }
  }

  lemma LastRcpt(tr: seq<Entry>) returns (taken: seq<string>, accepted: seq<string>)
    requires tr != []
    ensures |taken| <= |accepted|
    ensures taken == accepted <==> (RcptAccepted(tr[|tr| - 1]) ==> RcptTaken(tr[|tr| - 1]))
    ensures TakenRcpts(tr) == TakenRcpts(tr[..|tr| - 1]) + taken
    ensures AcceptedRcpts(tr) == AcceptedRcpts(tr[..|tr| - 1]) + accepted
  {
    var last := tr[|tr| - 1];
    taken := if RcptTaken(last) then [AddressIn(last)] else [];
    accepted := if RcptAccepted(last) then [AddressIn(last)] else [];
  }

  lemma AppendBoth(a: seq<string>, b: seq<string>, x: seq<string>, y: seq<string>)
    requires |a| <= |b| && |x| <= |y|
    ensures a + x == b + y <==> a == b && x == y
  {
    if a + x == b + y {
      assert a == (a + x)[..|a|] && b == (b + y)[..|b|];
      assert x == (a + x)[|a|..] && y == (b + y)[|b|..];
    }
  }

  lemma TrueOfFront(tr: seq<Entry>)
    requires tr != []
    ensures AnswersAreTrue(tr) <==>
              AnswersAreTrue(tr[..|tr| - 1]) && (RcptAccepted(tr[|tr| - 1]) ==> RcptTaken(tr[|tr| - 1]))
  {
    assert forall j :: 0 <= j < |tr| - 1 ==> tr[..|tr| - 1][j] == tr[j];
  }

  // tr[m] is the MAIL command whose transaction is still open at the end of tr.
  ghost predicate OpenedBy(tr: seq<Entry>, m: nat) {
    && m < |tr| && MailAccepted(tr[m])
    && forall j :: m < j < |tr| ==> !EndsTransaction(tr[j]) && !MailAccepted(tr[j])
  }

  // The envelope is exactly what the transcript says. Without one, the open MAIL,
  // if there is any, was refused and no RCPT since was accepted.
  ghost predicate Matches(envelope: Option<Envelope>, tr: seq<Entry>) {
    match envelope
    case None => forall m: nat :: OpenedBy(tr, m) ==> AcceptedRcpts(tr[m + 1..]) == []
    case Some(e) => exists m: nat :: OpenWith(tr, m, e)
  }

  ghost predicate OpenWith(tr: seq<Entry>, m: nat, e: Envelope) {
    && OpenedBy(tr, m) && MailTaken(tr[m])
    && e.sender == AddressIn(tr[m]) && e.recipients == TakenRcpts(tr[m + 1..])
  }

  lemma MailStep(c: Config, s: State, cmd: Command, a: Answers)
    ensures var o := Mail(c, s, cmd, a);
            if Answered(o.replies, 250) && a.sender.None?
            then AddressOf(cmd).Some? && o.state.envelope == Some(Envelope(AddressOf(cmd).value, [], ""))
            else o.state == s
    ensures Answered(Mail(c, s, cmd, a).replies, 250) ==> s.envelope == None
  {
  }

  lemma RcptStep(c: Config, s: State, cmd: Command, a: Answers)
    ensures var o := Rcpt(c, s, cmd, a);
            if Answered(o.replies, 250) && a.recipient.None?
            then AddressOf(cmd).Some? && s.envelope.Some?
                 && o.state.envelope
                    == Some(s.envelope.value.(recipients := s.envelope.value.recipients + [AddressOf(cmd).value]))
            else o.state == s
    ensures Answered(Rcpt(c, s, cmd, a).replies, 250) ==> s.envelope.Some?
  {
  }

  lemma GreetingStep(c: Config, s: State, cmd: Command, a: Answers)
    requires s.envelope.Some? ==> s.peer.heloName != ""
    ensures Helo(c, s, cmd, a).state.envelope == if |cmd.fields| >= 2 then None else s.envelope
    ensures Ehlo(c, s, cmd, a).state.envelope == if |cmd.fields| >= 2 then None else s.envelope
  {
  }

  lemma StartTlsStep(c: Config, s: State, a: Answers)
    ensures StartTls(c, s, a).state.envelope == if Answered(StartTls(c, s, a).replies, 220) then None else s.envelope
  {
  }

  // Every command but MAIL and RCPT ends the transaction or leaves it alone.
  lemma OtherStep(c: Config, s: State, cmd: Command, a: Answers)
    requires Orderly(c, s) && cmd.action != "MAIL" && cmd.action != "RCPT"
    ensures var o := Dispatch(c, s, cmd, a);
            o.state.envelope == if CommandEnds(cmd, o.replies) then None else s.envelope
  {
    hide Helo, Ehlo, Mail, Rcpt, StartTls, Data, Auth, Xclient;
    GreetingStep(c, s, cmd, a);
    DataChanges(c, s, a);
    StartTlsStep(c, s, a);
    AuthChanges(c, s, cmd, a);
    XclientChanges(c, s, cmd, a);
  }

  // What an event does to the envelope, read off its entry and the callbacks.
  function EnvelopeAfter(envelope: Option<Envelope>, e: Entry): Option<Envelope> {
    if EndsTransaction(e) then None
    else if MailTaken(e) then Some(Envelope(AddressIn(e), [], ""))
    else if RcptTaken(e) && envelope.Some? then
      Some(envelope.value.(recipients := envelope.value.recipients + [AddressIn(e)]))
    else envelope
  }

  lemma EnvelopeStep(c: Config, s: State, event: Event)
    requires Orderly(c, s)
    ensures var o := React(c, s, event); var e := Entry(event, o.replies, o.delivery);
            && o.state.envelope == EnvelopeAfter(s.envelope, e)
            && (MailAccepted(e) ==> s.envelope == None)
            && (RcptAccepted(e) ==> s.envelope.Some?)
  {
    if event.Line? {
      var cmd := ParseLine(event.line);
      if cmd.action == "MAIL" {
        MailStep(c, s, cmd, event.answers);
      } else if cmd.action == "RCPT" {
        RcptStep(c, s, cmd, event.answers);
      } else {
        OtherStep(c, s, cmd, event.answers);
      }
    }
  }

  lemma MatchesStep(c: Config, s: State, tr: seq<Entry>, event: Event)
    requires Orderly(c, s) && Matches(s.envelope, tr)
    ensures var o := React(c, s, event);
            Matches(o.state.envelope, tr + [Entry(event, o.replies, o.delivery)])
  {
    var o := React(c, s, event);
    EnvelopeStep(c, s, event);
    MatchesAppend(s.envelope, tr, Entry(event, o.replies, o.delivery));
  }

  lemma MatchesAppend(envelope: Option<Envelope>, tr: seq<Entry>, e: Entry)
    requires Matches(envelope, tr)
    requires MailAccepted(e) ==> envelope == None
    requires RcptAccepted(e) ==> envelope.Some?
    ensures Matches(EnvelopeAfter(envelope, e), tr + [e])
  {
    hide EndsTransaction, ParseLine, AddressOf, AcceptedRcpts, TakenRcpts;
    if EndsTransaction(e) {
      NoneOpenAfter(tr, e);
    } else if MailAccepted(e) {
      JustOpened(tr, e);
    } else if envelope.None? {
      StillBarren(tr, e);
    } else {
      var m: nat :| OpenWith(tr, m, envelope.value);
      StillOpen(tr, e, m);
      assert OpenWith(tr + [e], m, EnvelopeAfter(envelope, e).value);
    }
  }

  lemma NoneOpenAfter(tr: seq<Entry>, e: Entry)
    requires EndsTransaction(e)
    ensures forall m: nat :: !OpenedBy(tr + [e], m)
  {
    EndingIsNotMail(e);
    assert (tr + [e])[|tr|] == e;
  }

  lemma EndingIsNotMail(e: Entry)
    requires EndsTransaction(e)
    ensures !MailAccepted(e)
  {
  }

  lemma JustOpened(tr: seq<Entry>, e: Entry)
    requires MailAccepted(e) && !EndsTransaction(e)
    ensures var tr' := tr + [e];
            && OpenedBy(tr', |tr|) && tr'[|tr|] == e && tr'[|tr| + 1..] == []
            && AcceptedRcpts([]) == [] && TakenRcpts([]) == []
            && forall m: nat :: OpenedBy(tr', m) ==> m == |tr|
    ensures MailTaken(e) ==> OpenWith(tr + [e], |tr|, Envelope(AddressIn(e), [], ""))
  {
    assert (tr + [e])[|tr|] == e;
  }

  lemma StillOpen(tr: seq<Entry>, e: Entry, m: nat)
    requires m < |tr| && !EndsTransaction(e) && !MailAccepted(e)
    ensures OpenedBy(tr + [e], m) <==> OpenedBy(tr, m)
    ensures (tr + [e])[m] == tr[m]
    ensures AcceptedRcpts((tr + [e])[m + 1..])
         == AcceptedRcpts(tr[m + 1..]) + if RcptAccepted(e) then [AddressIn(e)] else []
    ensures TakenRcpts((tr + [e])[m + 1..])
         == TakenRcpts(tr[m + 1..]) + if RcptTaken(e) then [AddressIn(e)] else []
  {
    hide EndsTransaction, MailAccepted, RcptAccepted, RcptTaken, AddressIn;
    var tr' := tr + [e];
    assert tr'[m + 1..] == tr[m + 1..] + [e];
    assert (tr[m + 1..] + [e])[..|tr[m + 1..]|] == tr[m + 1..];
    assert forall j :: 0 <= j < |tr| ==> tr'[j] == tr[j];
    assert tr'[|tr|] == e;
  }

  lemma StillBarren(tr: seq<Entry>, e: Entry)
    requires Matches(None, tr) && !EndsTransaction(e) && !MailAccepted(e) && !RcptAccepted(e)
    ensures Matches(None, tr + [e])
  {
    hide AcceptedRcpts, EndsTransaction, MailAccepted, RcptAccepted;
    forall m: nat | OpenedBy(tr + [e], m)
      ensures AcceptedRcpts((tr + [e])[m + 1..]) == []
    {
      assert m < |tr| by { assert (tr + [e])[|tr|] == e; }
      StillOpen(tr, e, m);
    }
  }

  lemma {:induction false} TranscriptMatches(c: Config, events: seq<Event>)
    ensures var (s, tr) := Play(c, NewState(c), events); Matches(s.envelope, tr) && Orderly(c, s)
    decreases |events|
  {
    NewStateOrderly(c);
    if events != [] {
      var front, last := events[..|events| - 1], events[|events| - 1];
      assert events == front + [last];
      TranscriptMatches(c, front);
      PlayAppend(c, NewState(c), front, last);
      var (s, tr) := Play(c, NewState(c), front);
      MatchesStep(c, s, tr, last);
      ReactOrderly(c, s, last);
    }
  }

  // ----- The delivery history -------------------------------------------------

  // Entry k explains its Handler call: sender and recipients are those of the
  // one open transaction, the data those of the DATA command. The recipients are
  // those answered 250 exactly if none of these answers was a refusal.
  ghost predicate Explained(c: Config, tr: seq<Entry>, k: nat)
    requires k < |tr| && tr[k].delivery.Some?
  {
    var d := tr[k].delivery.value;
    && IsCommand(tr[k], "DATA")
    && tr[k].event.answers.data == Received(d.envelope.data)
    && |d.envelope.data| < c.maxMessageSize
    && d.result == tr[k].event.answers.handler
    && d.envelope.recipients != [] && |d.envelope.recipients| <= RecipientBound(c)
    && exists m: nat :: OpenWith(tr[..k], m, d.envelope)
                        && (d.envelope.recipients == AcceptedRcpts(tr[..k][m + 1..])
                            <==> AnswersAreTrue(tr[..k][m + 1..]))
  }

  lemma {:induction false} PlayPrefix(c: Config, s: State, events: seq<Event>, k: nat)
    requires k < |events|
    ensures var (t, tr) := Play(c, s, events[..k]); var o := React(c, t, events[k]);
            && Play(c, s, events).1[..k] == tr
            && Play(c, s, events).1[k] == Entry(events[k], o.replies, o.delivery)
    decreases |events|
  {
    hide React;
    if k > 0 {
      assert events[..k][1..] == events[1..][..k - 1];
      PlayPrefix(c, React(c, s, events[0]).state, events[1..], k - 1);
      var tr := Play(c, s, events).1;
      assert tr[..k] == [tr[0]] + tr[1..][..k - 1];
    }
  }

  lemma DataDelivers(c: Config, s: State, a: Answers)
    ensures var o := Data(c, s, a);
            o.delivery.Some? <==>
              && c.hasHandler && s.envelope.Some? && s.envelope.value.recipients != []
              && a.data.Received? && |a.data.text| < c.maxMessageSize
    ensures var o := Data(c, s, a);
            o.delivery.Some? ==>
              o.delivery.value == Delivery(s.peer, s.envelope.value.(data := a.data.text), a.handler)
  {
  }

  lemma OthersDoNotDeliver(c: Config, s: State, cmd: Command, a: Answers)
    requires cmd.action != "DATA"
    ensures Dispatch(c, s, cmd, a).delivery == None
  {
    hide Helo, Ehlo, Mail, Rcpt, StartTls, Data, Auth, Xclient;
    GreetingsDoNotDeliver(c, s, cmd, a);
    TransactionsDoNotDeliver(c, s, cmd, a);
    AuthChanges(c, s, cmd, a);
    XclientChanges(c, s, cmd, a);
  }

  lemma GreetingsDoNotDeliver(c: Config, s: State, cmd: Command, a: Answers)
    ensures Helo(c, s, cmd, a).delivery == None && Ehlo(c, s, cmd, a).delivery == None
    ensures StartTls(c, s, a).delivery == None
  {
  }

  lemma TransactionsDoNotDeliver(c: Config, s: State, cmd: Command, a: Answers)
    ensures Mail(c, s, cmd, a).delivery == None && Rcpt(c, s, cmd, a).delivery == None
  {
  }

  lemma DeliveryOnlyOnData(c: Config, s: State, event: Event)
    ensures React(c, s, event).delivery.Some? ==>
              && event.Line? && ParseLine(event.line).action == "DATA"
              && React(c, s, event) == Data(c, s, event.answers)
  {
    hide Data, ParseLine;
    if event.Line? && ParseLine(event.line).action != "DATA" {
      OthersDoNotDeliver(c, s, ParseLine(event.line), event.answers);
    }
  }

  lemma DeliveryExplained(c: Config, s: State, before: seq<Entry>, event: Event, tr: seq<Entry>)
    requires Matches(s.envelope, before) && Orderly(c, s) && React(c, s, event).delivery.Some?
    requires var o := React(c, s, event);
             |tr| > |before| && tr[..|before|] == before && tr[|before|] == Entry(event, o.replies, o.delivery)
    ensures Explained(c, tr, |before|)
  {
    hide Play, React, Data, AcceptedRcpts, TakenRcpts, MailAccepted, EndsTransaction, AnswersAreTrue;
    DeliveryOnlyOnData(c, s, event);
    DataDelivers(c, s, event.answers);
    TransactionExplained(s.envelope.value, before, tr[|before|].delivery.value.envelope);
  }

  lemma TransactionExplained(e: Envelope, before: seq<Entry>, delivered: Envelope)
    requires Matches(Some(e), before) && delivered == e.(data := delivered.data)
    ensures exists m: nat :: OpenWith(before, m, delivered)
                             && (delivered.recipients == AcceptedRcpts(before[m + 1..])
                                 <==> AnswersAreTrue(before[m + 1..]))
  {
    hide AcceptedRcpts, TakenRcpts, MailAccepted, MailTaken, EndsTransaction, AnswersAreTrue, AddressIn;
    var m: nat :| OpenWith(before, m, e);
    TakenIsAcceptedIff(before[m + 1..]);
    assert OpenWith(before, m, delivered);
  }

  // In every run of every session, every Handler call is explained by the
  // commands and replies before it.
  lemma DeliveryHistory(c: Config, events: seq<Event>, k: nat)
    requires k < |events| && Play(c, NewState(c), events).1[k].delivery.Some?
    ensures Explained(c, Play(c, NewState(c), events).1, k)
  {
    hide Play, React, Matches, Explained;
    PlayPrefix(c, NewState(c), events, k);
    TranscriptMatches(c, events[..k]);
    var (s, before) := Play(c, NewState(c), events[..k]);
    DeliveryExplained(c, s, before, events[k], Play(c, NewState(c), events).1);
  }

  // And nothing that should reach the Handler is lost: short enough DATA in an
  // open transaction reaches it exactly if some recipient was taken.
  lemma DeliveryHappens(c: Config, events: seq<Event>, k: nat, m: nat)
    requires c.hasHandler && k < |events| && events[k].Line? && ParseLine(events[k].line).action == "DATA"
    requires events[k].answers.data.Received? && |events[k].answers.data.text| < c.maxMessageSize
    ensures var tr := Play(c, NewState(c), events).1;
            OpenedBy(tr[..k], m) ==> (tr[k].delivery.Some? <==> TakenRcpts(tr[..k][m + 1..]) != [])
  {
    hide Play, ParseLine, Matches, AcceptedRcpts, TakenRcpts, EndsTransaction, MailAccepted, Data;
    PlayPrefix(c, NewState(c), events, k);
    TranscriptMatches(c, events[..k]);
    var (s, before) := Play(c, NewState(c), events[..k]);
    if OpenedBy(before, m) {
      OpenMeansEnvelope(s.envelope, before, m);
      DataDelivers(c, s, events[k].answers);
    }
  }

  lemma OpenMeansEnvelope(envelope: Option<Envelope>, tr: seq<Entry>, m: nat)
    requires Matches(envelope, tr) && OpenedBy(tr, m)
    ensures TakenRcpts(tr[m + 1..]) == if envelope.Some? then envelope.value.recipients else []
  {
    hide TakenRcpts, AcceptedRcpts, MailAccepted, EndsTransaction;
    if envelope.Some? {
      var m': nat :| OpenWith(tr, m', envelope.value);
      OneOpening(tr, m, m');
    } else {
      TakenIsAcceptedIff(tr[m + 1..]);
    }
  }

  lemma OneOpening(tr: seq<Entry>, m: nat, m': nat)
    requires OpenedBy(tr, m) && OpenedBy(tr, m')
    ensures m == m'
  {
  }

  // A MAIL refused with code 250 is answered like an accepted one but opens
  // nothing, so every RCPT that follows is told that the MAIL is missing.
  lemma DishonestCheckerMisleads(c: Config, s: State, line: string, a: Answers, message: string, next: Event)
    requires ParseLine(line).action == "MAIL" && a.sender == Some(Coded(250, message)) && s.envelope == None
    requires next.Line? && ParseLine(next.line).action == "RCPT"
    ensures var o := React(c, s, Line(line, a));
            && o.state == s && o.delivery == None
            && (o.replies == [Reply(250, [message])] || (|o.replies| == 1 && o.replies[0].code == 502))
            && (o.replies[0].code == 250 <==>
                  s.peer.heloName != "" && (c.forceTls ==> s.tls) && AddressOf(ParseLine(line)).Some?)
            && React(c, o.state, next).replies == [Reply(502, ["Missing MAIL FROM command."])]
  {
    hide ParseLine, Helo, Ehlo, StartTls, Data, Auth, Xclient;
  }
}
