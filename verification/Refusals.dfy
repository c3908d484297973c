// A whole session in which the replies mislead: a RecipientChecker that refuses
// with code 250.
module Refusals {
  import opened Wrappers
  import opened Text
  import opened Session
  import opened Addressing
  import opened SessionHistory
  import SmtpClient

  const WILLING := Answers(None, None, None, None, None, None, true, Broken, [])

  // Greeting, MAIL, a RCPT that is taken, a RCPT refused with code 250, DATA.
  function Commands(name: string, from: string, taken: string, refused: string, text: string): seq<Event> {
    [Line(SmtpClient.HeloLine(name), WILLING),
     Line(SmtpClient.MailLine(from, false), WILLING),
     Line(SmtpClient.RcptLine(taken), WILLING),
     Line(SmtpClient.RcptLine(refused), WILLING.(recipient := Some(Coded(250, "")))),
     Line("DATA", WILLING.(data := Received(text)))]
  }

  lemma PlayStep(c: Config, s: State, events: seq<Event>, t: State, tr: seq<Entry>, e: Event)
    requires Play(c, s, events) == (t, tr)
    ensures var o := React(c, t, e);
            Play(c, s, events + [e]) == (o.state, tr + [Entry(e, o.replies, o.delivery)])
  {
    PlayAppend(c, s, events, e);
  }

  lemma GreetingStep(c: Config, s: State, name: string) returns (t: State)
    requires Words(name) != [] && s.envelope == None
    ensures React(c, s, Line(SmtpClient.HeloLine(name), WILLING)).state == t
    ensures t.envelope == None && t.peer.heloName != ""
  {
    hide Words, ParseLine, Handle;
    t := React(c, s, Line(SmtpClient.HeloLine(name), WILLING)).state;
    SmtpClient.GreetingHandled(c, s, name, WILLING);
    SmtpClient.GreetingChanges(c, s, ParseLine(SmtpClient.HeloLine(name)), WILLING);
  }

  lemma MailTakes(c: Config, s: State, from: string) returns (e: Entry, t: State)
    requires Mailbox(from) && s.envelope == None && s.peer.heloName != "" && !c.forceTls
    ensures var o := React(c, s, Line(SmtpClient.MailLine(from, false), WILLING));
            e == Entry(Line(SmtpClient.MailLine(from, false), WILLING), o.replies, o.delivery) && t == o.state
    ensures t.envelope == Some(Envelope(from, [], "")) && MailAccepted(e) && AddressIn(e) == from
  {
    var line := SmtpClient.MailLine(from, false);
    var o := React(c, s, Line(line, WILLING));
    e, t := Entry(Line(line, WILLING), o.replies, o.delivery), o.state;
    IsMail(from);
    hide Words, ParseLine, Handle, Mailbox, AddressOf, SmtpClient.MailLine;
    SmtpClient.MailHandled(c, s, from, false, WILLING);
  }

  lemma IsMail(from: string)
    ensures ParseLine(SmtpClient.MailLine(from, false)).action == "MAIL"
  {
    hide ToUpper, Words;
    CommandWords("MAIL", "FROM" + ":<" + from + ">" + "");
    UpperAlready("MAIL");
  }

  lemma IsRcpt(to: string)
    ensures ParseLine(SmtpClient.RcptLine(to)).action == "RCPT"
  {
    hide ToUpper, Words;
    CommandWords("RCPT", "TO" + ":<" + to + ">" + "");
    UpperAlready("RCPT");
  }

  // A RCPT that is taken, or refused with code 250: both are answered 250.
  lemma RcptAnswered(c: Config, s: State, to: string, a: Answers) returns (e: Entry, t: State)
    requires Mailbox(to) && s.envelope.Some? && |s.envelope.value.recipients| < c.maxRecipients
    requires a.recipient.None? || a.recipient == Some(Coded(250, ""))
    ensures var o := React(c, s, Line(SmtpClient.RcptLine(to), a));
            e == Entry(Line(SmtpClient.RcptLine(to), a), o.replies, o.delivery) && t == o.state
    ensures RcptAccepted(e) && AddressIn(e) == to && !EndsTransaction(e) && !MailAccepted(e)
    ensures t == s.(envelope := Some(SmtpClient.WithRcpt(s.envelope.value, a, to)))
  {
    var line := SmtpClient.RcptLine(to);
    var o := React(c, s, Line(line, a));
    e, t := Entry(Line(line, a), o.replies, o.delivery), o.state;
    IsRcpt(to);
    hide Words, ParseLine, Handle, Mailbox, AddressOf, SmtpClient.RcptLine;
    SmtpClient.RcptHandled(c, s, to, a);
  }

  lemma DataReaches(c: Config, s: State, text: string)
    requires s.envelope.Some? && s.envelope.value.recipients != [] && c.hasHandler && |text| < c.maxMessageSize
    ensures var d := React(c, s, Line("DATA", WILLING.(data := Received(text)))).delivery;
            d.Some? && d.value.envelope == s.envelope.value.(data := text)
  {
    hide Handle, Data;
    SmtpClient.DataHandled(c, s, WILLING.(data := Received(text)));
    DataDelivers(c, s, WILLING.(data := Received(text)));
  }

  // Greeting, MAIL and the first RCPT.
  lemma Opening(c: Config, name: string, from: string, taken: string) returns (tr: seq<Entry>, t: State)
    requires !c.forceTls && c.maxRecipients >= 2 && Words(name) != [] && Mailbox(from) && Mailbox(taken)
    ensures |tr| == 3 && Play(c, NewState(c), Commands(name, from, taken, "", "")[..3]) == (t, tr)
    ensures t.envelope == Some(Envelope(from, [taken], ""))
    ensures MailAccepted(tr[1]) && RcptAccepted(tr[2]) && AddressIn(tr[2]) == taken
    ensures !EndsTransaction(tr[2]) && !MailAccepted(tr[2])
  {
    hide Play, React, Mailbox, Words, MailAccepted, RcptAccepted, EndsTransaction;
    var events := Commands(name, from, taken, "", "");
    var s0 := NewState(c);
    PlayNothing(c, s0);
    var s1 := GreetingStep(c, s0, name);
    PlayStep(c, s0, [], s0, [], events[0]);
    var e1, s2 := MailTakes(c, s1, from);
    var first := React(c, s0, events[0]);
    var e0 := Entry(events[0], first.replies, first.delivery);
    assert [] + [events[0]] == events[..1] && [] + [e0] == [e0];
    PlayStep(c, s0, events[..1], s1, [e0], events[1]);
    var e2, s3 := RcptAnswered(c, s2, taken, WILLING);
    assert events[..1] + [events[1]] == events[..2] && [e0] + [e1] == [e0, e1];
    PlayStep(c, s0, events[..2], s2, [e0, e1], events[2]);
    assert events[..2] + [events[2]] == events[..3];
    assert [] + [taken] == [taken];
    tr, t := [e0, e1] + [e2], s3;
  }

  // The replies promise both recipients, the Handler gets one: the answers alone
  // do not tell what is delivered.
  lemma RefusedRecipientMisleads(c: Config, name: string, from: string, taken: string, refused: string, text: string)
    requires c.hasHandler && !c.forceTls && c.maxRecipients >= 2 && |text| < c.maxMessageSize
    requires Words(name) != [] && Mailbox(from) && Mailbox(taken) && Mailbox(refused)
    ensures var tr := Play(c, NewState(c), Commands(name, from, taken, refused, text)).1;
            && tr[4].delivery.Some? && tr[4].delivery.value.envelope == Envelope(from, [taken], text)
            && OpenedBy(tr[..4], 1) && AcceptedRcpts(tr[..4][2..]) == [taken, refused]
  {
    hide Play, React, Mailbox, Words, MailAccepted, RcptAccepted, EndsTransaction;
    var events := Commands(name, from, taken, refused, text);
    var s0 := NewState(c);
    var three, s3 := Opening(c, name, from, taken);
    assert Commands(name, from, taken, "", "")[..3] == events[..3];
    var e3, s4 := RcptAnswered(c, s3, refused, WILLING.(recipient := Some(Coded(250, ""))));
    PlayStep(c, s0, events[..3], s3, three, events[3]);
    DataReaches(c, s4, text);
    var four := three + [e3];
    assert events[..3] + [events[3]] == events[..4];
    PlayStep(c, s0, events[..4], s4, four, events[4]);
    assert events[..4] + [events[4]] == events;
    var last := React(c, s4, events[4]);
    assert (four + [Entry(events[4], last.replies, last.delivery)])[..4] == four;
    assert four[2..] == [three[2], e3];
    TwoAccepted(three[2], e3);
  }

  lemma TwoAccepted(a: Entry, b: Entry)
    requires RcptAccepted(a) && RcptAccepted(b)
    ensures AcceptedRcpts([a, b]) == [AddressIn(a), AddressIn(b)]
  {
    assert [a, b][..1] == [a] && [a][..0] == [];
    assert AcceptedRcpts([a]) == [AddressIn(a)];
  }
}
