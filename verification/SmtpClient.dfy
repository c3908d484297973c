// The SMTP client of smtp/smtp.go, run against the server session of Session.
module SmtpClient {
  import opened Wrappers
  import opened Text
  import opened Session
  import opened Addressing

  // What happens to one exchange: the connection breaks before the command or
  // after it, or both arrive. The answers are those of the server's callbacks.
  datatype Link = CommandLost | ReplyLost(answers: Answers) | Through(answers: Answers)

  datatype ClientError = NoReply | Unexpected(reply: Reply)

  // textproto's ReadResponse: an expected code of one, two or three digits.
  predicate CodeMatches(code: int, wanted: int) {
    && 100 <= code <= 999
    && (1 <= wanted < 10 ==> code / 100 == wanted)
    && (10 <= wanted < 100 ==> code / 10 == wanted)
    && (100 <= wanted < 1000 ==> code == wanted)
  }

  // ----- Extensions -----------------------------------------------------------

  function ExtensionOf(line: string): (string, string) {
    match Cut(line, " ")
    case None => (line, "")
    case Some((name, params)) => (name, params)
  }

  // A name listed twice keeps its last parameters.
  function ExtensionMap(lines: seq<string>): map<string, string> {
    if lines == [] then map[]
    else
      var (name, params) := ExtensionOf(lines[|lines| - 1]);
      ExtensionMap(lines[..|lines| - 1])[name := params]
  }

  // The line is this name, or begins with it and a space.
  predicate Lists(line: string, name: string) {
    ' ' !in name && (line == name || name + " " <= line)
  }

  // What stands behind the name.
  function Parameters(line: string, name: string): string
    requires Lists(line, name)
  {
    if line == name then "" else line[|name| + 1..]
  }

  lemma {:induction false} ListsIff(line: string, name: string)
    ensures ExtensionOf(line).0 == name <==> Lists(line, name)
    ensures Lists(line, name) ==> ExtensionOf(line).1 == Parameters(line, name)
    decreases |line|
  {
    if line != "" && line[0] != ' ' && name != "" && name[0] == line[0] {
      ListsIff(line[1..], name[1..]);
      assert name == [name[0]] + name[1..] && line == [line[0]] + line[1..];
      assert (name + " ")[1..] == name[1..] + " ";
    }
  }

  // A name is an extension exactly if a line lists it.
  lemma {:induction false} ExtensionIffListed(lines: seq<string>, name: string)
    ensures name in ExtensionMap(lines) <==> exists i :: 0 <= i < |lines| && Lists(lines[i], name)
  {
    hide ExtensionOf, Lists, Parameters;
    if lines != [] {
      var front := lines[..|lines| - 1];
      ExtensionIffListed(front, name);
      ListsIff(lines[|lines| - 1], name);
      assert forall i :: 0 <= i < |front| ==> front[i] == lines[i];
    }
  }

  // The last line that lists it gives its parameters.
  lemma {:induction false} LastListingCounts(lines: seq<string>, name: string, i: nat)
    requires i < |lines| && Lists(lines[i], name) && forall k :: i < k < |lines| ==> !Lists(lines[k], name)
    ensures name in ExtensionMap(lines) && ExtensionMap(lines)[name] == Parameters(lines[i], name)
  {
    hide ExtensionOf, Lists, Parameters;
    ListsIff(lines[|lines| - 1], name);
    if i < |lines| - 1 {
      var front := lines[..|lines| - 1];
      assert forall k :: 0 <= k < |front| ==> front[k] == lines[k];
      LastListingCounts(front, name, i);
    }
  }

  const STARTTLS := "STARTTLS"

  // The client sees STARTTLS exactly when the server can still switch to TLS.
  lemma StartTlsOfferedIff(c: Config, s: State)
    ensures STARTTLS in ExtensionMap(Extensions(c, s)) <==> c.hasTls && !s.tls
  {
    hide Decimal, ExtensionOf, ExtensionMap;
    var lines := Extensions(c, s);
    ExtensionIffListed(lines, STARTTLS);
    OnlyStartTls(c, s);
    if c.hasTls && !s.tls {
      var i := if c.enableXclient then 4 else 3;
      assert lines[i] == STARTTLS;
      assert Lists(lines[i], STARTTLS);
    } else {
      forall i | 0 <= i < |lines|
        ensures !Lists(lines[i], STARTTLS)
      {
        assert STARTTLS[1] == 'T';
      }
    }
  }

  lemma OnlyStartTls(c: Config, s: State)
    ensures forall i :: 0 <= i < |Extensions(c, s)| && !(c.hasTls && !s.tls) ==>
              |Extensions(c, s)[i]| >= 2 && Extensions(c, s)[i][1] != 'T'
  {
  }

  lemma ExtensionsByTls(c: Config, s: State, t: State)
    requires s.tls == t.tls
    ensures Extensions(c, s) == Extensions(c, t)
  {
  }

  // ----- Commands -------------------------------------------------------------

  function MailLine(from: string, eightBit: bool): string {
    EnvelopeLine("MAIL", "FROM", from, if eightBit then " BODY=8BITMIME" else "")
  }

  function RcptLine(to: string): string {
    EnvelopeLine("RCPT", "TO", to, "")
  }

  lemma MailHandled(c: Config, s: State, from: string, eightBit: bool, a: Answers)
    ensures Handle(c, s, MailLine(from, eightBit), a) == Mail(c, s, ParseLine(MailLine(from, eightBit)), a)
    ensures Mailbox(from) ==> AddressOf(ParseLine(MailLine(from, eightBit))) == Some(from)
  {
    hide Mail, Rcpt, Helo, Ehlo, Auth, Data, Xclient, StartTls, ParseLine, AddressOf, ToUpper, Words;
    var suffix := if eightBit then " BODY=8BITMIME" else "";
    CommandWords("MAIL", "FROM" + ":<" + from + ">" + suffix);
    UpperAlready("MAIL");
    if Mailbox(from) {
      MailboxIsRead("MAIL", "FROM", from, suffix);
    }
  }

  lemma RcptHandled(c: Config, s: State, to: string, a: Answers)
    ensures Handle(c, s, RcptLine(to), a) == Rcpt(c, s, ParseLine(RcptLine(to)), a)
    ensures Mailbox(to) ==> AddressOf(ParseLine(RcptLine(to))) == Some(to)
  {
    hide Mail, Rcpt, Helo, Ehlo, Auth, Data, Xclient, StartTls, ParseLine, AddressOf, ToUpper, Words;
    CommandWords("RCPT", "TO" + ":<" + to + ">" + "");
    UpperAlready("RCPT");
    if Mailbox(to) {
      MailboxIsRead("RCPT", "TO", to, "");
    }
  }

  lemma GreetingHandled(c: Config, s: State, name: string, a: Answers)
    ensures Handle(c, s, "EHLO" + (" " + name), a) == Ehlo(c, s, ParseLine("EHLO" + (" " + name)), a)
    ensures Handle(c, s, "HELO" + (" " + name), a) == Helo(c, s, ParseLine("HELO" + (" " + name)), a)
    ensures Words(name) != [] ==>
              && |ParseLine("EHLO" + (" " + name)).fields| >= 2
              && ParseLine("EHLO" + (" " + name)).fields[1] != ""
              && |ParseLine("HELO" + (" " + name)).fields| >= 2
              && ParseLine("HELO" + (" " + name)).fields[1] != ""
  {
    hide Mail, Rcpt, Helo, Ehlo, Auth, Data, Xclient, StartTls, ParseLine, ToUpper, Words;
    CommandWords("EHLO", name);
    CommandWords("HELO", name);
    UpperAlready("EHLO");
    UpperAlready("HELO");
    WordsSolid(name);
  }

  lemma DataHandled(c: Config, s: State, a: Answers)
    ensures Handle(c, s, "DATA", a) == Data(c, s, a)
  {
    hide Mail, Rcpt, Helo, Ehlo, Auth, Data, Xclient, StartTls, ParseLine, ToUpper, Words;
    BareCommand("DATA");
    UpperAlready("DATA");
  }

  lemma StartTlsHandled(c: Config, s: State, a: Answers)
    ensures Handle(c, s, STARTTLS, a) == StartTls(c, s, a)
  {
    hide Mail, Rcpt, Helo, Ehlo, Auth, Data, Xclient, StartTls, ParseLine, ToUpper, Words;
    BareCommand(STARTTLS);
    UpperAlready(STARTTLS);
  }

  lemma QuitHandled(c: Config, s: State, a: Answers)
    ensures Handle(c, s, "QUIT", a) == Answer(s.(closed := true), 221, "OK, bye")
  {
    hide Mail, Rcpt, Helo, Ehlo, Auth, Data, Xclient, StartTls, ParseLine, ToUpper, Words;
    BareCommand("QUIT");
    UpperAlready("QUIT");
  }

  function EhloLine(name: string): string {
    "EHLO" + (" " + name)
  }

  function HeloLine(name: string): string {
    "HELO" + (" " + name)
  }

  // The commands as they are on the wire.
  lemma CommandTexts(name: string, address: string)
    ensures HeloLine(name) == "HELO " + name && EhloLine(name) == "EHLO " + name
    ensures MailLine(address, false) == "MAIL FROM:<" + address + ">"
    ensures MailLine(address, true) == "MAIL FROM:<" + address + "> BODY=8BITMIME"
    ensures RcptLine(address) == "RCPT TO:<" + address + ">"
  {
  }

  // The address the server reads from a line.
  function Read(line: string): Option<string> {
    AddressOf(ParseLine(line))
  }

  lemma MailIsRead(from: string, eightBit: bool)
    ensures Read(MailLine(from, eightBit)) == Some(from) <==> Mailbox(from)
  {
    AddressSurvivesIff("MAIL", "FROM", from, if eightBit then " BODY=8BITMIME" else "");
  }

  lemma RcptIsRead(to: string)
    ensures Read(RcptLine(to)) == Some(to) <==> Mailbox(to)
  {
    AddressSurvivesIff("RCPT", "TO", to, "");
  }

  // ----- What each command of the client does to the session ------------------

  // bufio.MaxScanTokenSize: a line and its CRLF must fit into the server's scanner.
  const SCANNER_LIMIT := 65536

  predicate Fits(line: string) {
    |line| + 2 <= SCANNER_LIMIT
  }

  // What the session makes of a line on the wire.
  function Exchange(c: Config, s: State, line: string, a: Answers): Outcome {
    React(c, s, if Fits(line) then Line(line, a) else TooLong)
  }

  // A refusal whose code is between 250 and last, and so reads as a success.
  predicate Claims(refusal: Option<Failure>, last: int) {
    refusal.Some? && refusal.value.Coded? && 250 <= refusal.value.code <= last
  }

  // Everything arrives and no callback refuses.
  predicate Willing(link: Link) {
    && link.Through? && link.answers.handshake && link.answers.data.Received?
    && link.answers.connection.None? && link.answers.helo.None? && link.answers.sender.None?
    && link.answers.recipient.None? && link.answers.handler.None?
  }

  // The greeting arrives and is coded 220.
  predicate Welcomed(link: Link) {
    && link.Through?
    && (link.answers.connection.Some? ==>
          link.answers.connection.value.Coded? && link.answers.connection.value.code == 220)
  }

  lemma WillingWelcomes(link: Link)
    ensures Willing(link) ==> Welcomed(link)
  {
  }

  // A server that refuses a greeting.
  predicate RefusesGreeting(link: Link) {
    link.Through? && link.answers.helo.Some? && !Claims(link.answers.helo, 250)
  }

  // The callbacks of an exchange whose message text, if any, is the given one.
  function WithText(link: Link, text: string): Answers {
    if link.CommandLost? then NO_ANSWERS
    else if link.answers.data.Received? then link.answers.(data := Received(text))
    else link.answers
  }

  const NO_ANSWERS := Answers(None, None, None, None, None, None, false, Broken, [])

  // Before the first MAIL: nothing open, nothing delivered.
  ghost predicate Quiet(session: SmtpSession)
    reads session
  {
    session.envelope == None && session.deliveries == []
  }

  // A greeting changes no more than the peer and the envelope.
  ghost predicate GreetingOutcome(o: Outcome, s: State) {
    && (s.envelope == None ==> o.state.envelope == None)
    && o.delivery == None && |o.replies| == 1
    && o.state.tls == s.tls && o.state.closed == s.closed && o.state.crashed == s.crashed
  }

  lemma GreetingChanges(c: Config, s: State, cmd: Command, a: Answers)
    ensures GreetingOutcome(Helo(c, s, cmd, a), s) && GreetingOutcome(Ehlo(c, s, cmd, a), s)
    ensures var o := Ehlo(c, s, cmd, a);
            |cmd.fields| >= 2 && a.helo.None? ==>
              && o.state.peer.heloName == cmd.fields[1] && o.replies[0].code == 250
              && o.replies[0].lines == [c.hostname] + Extensions(c, o.state)
    ensures |cmd.fields| >= 2 && a.helo.None? ==>
              && Helo(c, s, cmd, a).state.peer.heloName == cmd.fields[1]
              && Helo(c, s, cmd, a).replies[0].code == 250
    ensures a.helo.Some? && !Claims(a.helo, 250) ==> Ehlo(c, s, cmd, a).replies[0].code != 250
  {
  }

  lemma HeloOutcome(c: Config, s: State, name: string, a: Answers)
    ensures GreetingOutcome(Exchange(c, s, HeloLine(name), a), s)
    ensures var o := Exchange(c, s, HeloLine(name), a);
            Words(name) != [] && Fits(HeloLine(name)) && a.helo.None? ==>
              o.state.peer.heloName != "" && o.replies[0].code == 250
  {
    hide Handle, Helo, Ehlo;
    GreetingHandled(c, s, name, a);
    GreetingChanges(c, s, ParseLine(HeloLine(name)), a);
  }

  lemma EhloOutcome(c: Config, s: State, name: string, a: Answers)
    ensures GreetingOutcome(Exchange(c, s, EhloLine(name), a), s)
    ensures var o := Exchange(c, s, EhloLine(name), a);
            Words(name) != [] && Fits(EhloLine(name)) && a.helo.None? ==>
              && o.state.peer.heloName != "" && o.replies[0].code == 250
              && o.replies[0].lines == [c.hostname] + Extensions(c, o.state)
    ensures a.helo.Some? && !Claims(a.helo, 250) ==>
              Exchange(c, s, EhloLine(name), a).replies[0].code != 250
  {
    hide Handle, Helo, Ehlo;
    GreetingHandled(c, s, name, a);
    GreetingChanges(c, s, ParseLine(EhloLine(name)), a);
  }

  // A refused MAIL may be answered 250; it opens nothing.
  lemma MailAccepted(c: Config, s: State, cmd: Command, a: Answers)
    ensures var o := Mail(c, s, cmd, a);
            && o.delivery == None && |o.replies| == 1
            && o.state == s.(envelope := o.state.envelope)
    ensures Mail(c, s, cmd, a).replies[0].code == 250 ==>
              && AddressOf(cmd).Some? && s.envelope == None
              && Mail(c, s, cmd, a).state.envelope
                 == if a.sender.None? then Some(Envelope(AddressOf(cmd).value, [], "")) else None
    ensures Mail(c, s, cmd, a).replies[0].code == 250 && a.sender.Some? ==> Claims(a.sender, 250)
    ensures (&& s.peer.heloName != "" && (c.forceTls ==> s.tls) && s.envelope == None
             && a.sender.None? && AddressOf(cmd).Some?)
            ==> Mail(c, s, cmd, a).replies[0].code == 250
  {
  }

  // A refused RCPT may be answered 25x; it adds no recipient.
  lemma RcptAccepted(c: Config, s: State, cmd: Command, a: Answers)
    ensures var o := Rcpt(c, s, cmd, a);
            && o.delivery == None && |o.replies| == 1
            && o.state == s.(envelope := o.state.envelope)
    ensures Rcpt(c, s, cmd, a).replies[0].code / 10 == 25 ==>
              && AddressOf(cmd).Some? && s.envelope.Some?
              && Rcpt(c, s, cmd, a).state.envelope == Some(WithRcpt(s.envelope.value, a, AddressOf(cmd).value))
    ensures Rcpt(c, s, cmd, a).replies[0].code / 10 == 25 && a.recipient.Some? ==> Claims(a.recipient, 259)
    ensures (&& s.envelope.Some? && |s.envelope.value.recipients| < c.maxRecipients
             && a.recipient.None? && AddressOf(cmd).Some?)
            ==> Rcpt(c, s, cmd, a).replies[0].code == 250
  {
  }

  function WithRcpt(e: Envelope, a: Answers, to: string): Envelope {
    if a.recipient.None? then e.(recipients := e.recipients + [to]) else e
  }

  lemma StartTlsOutcome(c: Config, s: State, a: Answers)
    ensures var o := Exchange(c, s, STARTTLS, a);
            && (s.envelope == None ==> o.state.envelope == None)
            && o.delivery == None && 1 <= |o.replies| <= 2
            && (|o.replies| == 2 ==> o.replies[0].code == 220)
            && (c.hasTls && !s.tls && a.handshake ==>
                  && o.state == Reset(s).(tls := true, peer := s.peer.(tls := true))
                  && o.replies[0].code == 220)
  {
    hide Handle;
    StartTlsHandled(c, s, a);
  }

  lemma MailOutcome(c: Config, s: State, from: string, eightBit: bool, a: Answers)
    ensures var o := Exchange(c, s, MailLine(from, eightBit), a);
            o.delivery == None && |o.replies| == 1 && o.state == s.(envelope := o.state.envelope)
    ensures var o := Exchange(c, s, MailLine(from, eightBit), a); var address := Read(MailLine(from, eightBit));
            o.replies[0].code == 250 ==>
              && address.Some? && s.envelope == None
              && o.state.envelope == if a.sender.None? then Some(Envelope(address.value, [], "")) else None
    ensures Exchange(c, s, MailLine(from, eightBit), a).replies[0].code == 250 && a.sender.Some? ==>
              Claims(a.sender, 250)
    ensures (&& s.peer.heloName != "" && (c.forceTls ==> s.tls) && s.envelope == None
             && a.sender.None? && Mailbox(from) && Fits(MailLine(from, eightBit)))
            ==> Exchange(c, s, MailLine(from, eightBit), a).replies[0].code == 250
  {
    hide Handle, Mail, MailLine, ParseLine, AddressOf, Mailbox;
    MailHandled(c, s, from, eightBit, a);
    MailAccepted(c, s, ParseLine(MailLine(from, eightBit)), a);
  }

  lemma ShorterMail(from: string, eightBit: bool)
    ensures Fits(MailLine(from, true)) ==> Fits(MailLine(from, eightBit))
  {
  }

  lemma RcptOutcome(c: Config, s: State, to: string, a: Answers)
    ensures var o := Exchange(c, s, RcptLine(to), a);
            o.delivery == None && |o.replies| == 1 && o.state == s.(envelope := o.state.envelope)
    ensures var o := Exchange(c, s, RcptLine(to), a); var address := Read(RcptLine(to));
            o.replies[0].code / 10 == 25 ==>
              && address.Some? && s.envelope.Some?
              && o.state.envelope == Some(WithRcpt(s.envelope.value, a, address.value))
    ensures Exchange(c, s, RcptLine(to), a).replies[0].code / 10 == 25 && a.recipient.Some? ==>
              Claims(a.recipient, 259)
    ensures (&& s.envelope.Some? && |s.envelope.value.recipients| < c.maxRecipients
             && a.recipient.None? && Mailbox(to) && Fits(RcptLine(to)))
            ==> Exchange(c, s, RcptLine(to), a).replies[0].code == 250
  {
    hide Handle, Rcpt, RcptLine, ParseLine, AddressOf, Mailbox;
    RcptHandled(c, s, to, a);
    RcptAccepted(c, s, ParseLine(RcptLine(to)), a);
  }

  lemma DataOutcome(c: Config, s: State, a: Answers)
    ensures var o := Exchange(c, s, "DATA", a);
            && 1 <= |o.replies| <= 2 && (|o.replies| == 2 ==> o.replies[0].code == 354)
            && o.state == s.(envelope := o.state.envelope)
            && (o.delivery.Some? ==>
                  && a.data.Received? && c.hasHandler && s.envelope.Some?
                  && o.delivery.value == Delivery(s.peer, s.envelope.value.(data := a.data.text), a.handler))
            && (|o.replies| == 2 && o.replies[1].code == 250 ==>
                  && (c.hasHandler ==> o.delivery.Some?) && (c.hasHandler ==> Accepts(a.handler)))
            && (s.envelope.Some? && s.envelope.value.recipients != []
                && a.data.Received? && |a.data.text| < c.maxMessageSize && a.handler.None? ==>
                  |o.replies| == 2 && o.replies[1].code == 250)
  {
    hide Handle, Decimal;
    DataHandled(c, s, a);
  }

  lemma QuitOutcome(c: Config, s: State, a: Answers)
    ensures Exchange(c, s, "QUIT", a) == Answer(s.(closed := true), 221, "OK, bye")
  {
    hide Handle;
    QuitHandled(c, s, a);
  }

  // What the Handler returned for a message the client saw accepted.
  predicate Accepts(result: Option<Failure>) {
    result.Some? ==> result.value.Coded? && result.value.code == 250
  }

  predicate Mailboxes(from: string, to: seq<string>) {
    Mailbox(from) && forall i :: 0 <= i < |to| ==> Mailbox(to[i])
  }

  // ----- Recipients that were taken -------------------------------------------

  predicate RcptRefused(link: Link) {
    !link.CommandLost? && link.answers.recipient.Some?
  }

  function ReadRcpt(to: string): string {
    if Read(RcptLine(to)).Some? then Read(RcptLine(to)).value else ""
  }

  // The addresses as the server read them, without those its RecipientChecker
  // refused; the RCPT commands are exchanges first, first + 1, and so on.
  function Kept(world: nat -> Link, first: nat, to: seq<string>): seq<string> {
    if to == [] then []
    else
      var i := |to| - 1;
      Kept(world, first, to[..i]) + if RcptRefused(world(first + i)) then [] else [ReadRcpt(to[i])]
  }

  // Address i survives the wire and its RCPT was not refused.
  predicate TakenAt(world: nat -> Link, first: nat, to: seq<string>, i: nat)
    requires i < |to|
  {
    Mailbox(to[i]) && !RcptRefused(world(first + i))
  }

  ghost predicate AllTaken(world: nat -> Link, first: nat, to: seq<string>) {
    forall i :: 0 <= i < |to| ==> TakenAt(world, first, to, i)
  }

  // They are the client's recipients exactly if none was refused and every
  // address survives the wire.
  lemma {:induction false} KeptIsAllIff(world: nat -> Link, first: nat, to: seq<string>)
    requires forall i :: 0 <= i < |to| ==> Read(RcptLine(to[i])).Some?
    ensures |Kept(world, first, to)| <= |to|
    ensures Kept(world, first, to) == to <==> AllTaken(world, first, to)
    decreases |to|
  {
    hide Read, RcptLine, AllTaken, Kept, TakenAt;
    if to == [] {
      NoneKept(world, first);
    } else {
      var front := to[..|to| - 1];
      assert forall i :: 0 <= i < |front| ==> front[i] == to[i];
      KeptIsAllIff(world, first, front);
      AllTakenOfFront(world, first, to);
      var last := LastKept(world, first, to);
      assert to == front + [to[|to| - 1]];
      SamePieces(Kept(world, first, to), Kept(world, first, front), last, to, front, [to[|to| - 1]]);
    }
  }

  lemma NoneKept(world: nat -> Link, first: nat)
    ensures Kept(world, first, []) == [] && AllTaken(world, first, [])
  {
  }

  lemma LastKept(world: nat -> Link, first: nat, to: seq<string>) returns (last: seq<string>)
    requires to != [] && Read(RcptLine(to[|to| - 1])).Some?
    ensures var i := |to| - 1;
            && Kept(world, first, to) == Kept(world, first, to[..i]) + last
            && |last| <= 1 && (last == [to[i]] <==> TakenAt(world, first, to, i))
  {
    hide Mailbox, RcptLine, Read, ReadRcpt, RcptRefused;
    var i := |to| - 1;
    last := if RcptRefused(world(first + i)) then [] else [ReadRcpt(to[i])];
    ReadRcptIff(to[i]);
    assert last != [] ==> last[0] == ReadRcpt(to[i]);
  }

  lemma ReadRcptIff(to: string)
    requires Read(RcptLine(to)).Some?
    ensures ReadRcpt(to) == to <==> Mailbox(to)
  {
    hide Mailbox, RcptLine, AddressOf, ParseLine;
    RcptIsRead(to);
  }

  lemma AllTakenOfFront(world: nat -> Link, first: nat, to: seq<string>)
    requires to != []
    ensures var i := |to| - 1;
            AllTaken(world, first, to) <==> AllTaken(world, first, to[..i]) && TakenAt(world, first, to, i)
  {
    hide Mailbox, RcptRefused;
    var front := to[..|to| - 1];
    forall k | 0 <= k < |front|
      ensures TakenAt(world, first, front, k) == TakenAt(world, first, to, k)
    {
      assert front[k] == to[k];
    }
  }

  lemma SamePieces(s: seq<string>, a: seq<string>, x: seq<string>, t: seq<string>, b: seq<string>, y: seq<string>)
    requires s == a + x && t == b + y && |a| <= |b| && |x| <= |y|
    ensures |s| <= |t| && (s == t <==> a == b && x == y)
  {
    if s == t {
      assert a == s[..|a|] && b == t[..|b|];
      assert x == s[|a|..] && y == t[|b|..];
    }
  }

  class Client {
    const session: SmtpSession
    const world: nat -> Link // what happens to exchange number n
    const transfer: string -> string // dot encoding and decoding of the text
    var sent: nat
    var inbox: seq<Reply> // replies not read yet
    var dead: bool
    var tls: bool
    var ext: Option<map<string, string>>
    var auth: seq<string>
    var localName: string
    var didHello: bool
    var helloError: Option<ClientError>
    ghost var log: seq<string> // the command lines written

    constructor (session: SmtpSession, world: nat -> Link, transfer: string -> string, localName: string)
      ensures this.session == session && this.world == world && this.transfer == transfer
      ensures sent == 1 && inbox == [] && !dead && !tls && ext == None && !didHello && helloError == None
      ensures this.localName == localName && log == []
    {
      this.session, this.world, this.transfer, this.localName := session, world, transfer, localName;
      sent, inbox, dead, tls, ext, auth, didHello, helloError := 1, [], false, false, None, [], false, None;
      log := [];
    }

    // Both ends use the same protocol layer on a connection that works.
    ghost predicate Connected()
      reads this, session
    {
      !dead && tls == session.tls && !session.closed && !session.crashed
    }

    // Command number i is exchange number i + 1, the greeting being number 0.
    ghost predicate Counted()
      reads this
    {
      sent == |log| + 1
    }

    ghost predicate Ready()
      reads this, session
    {
      && Connected() && inbox == [] && Words(localName) != [] && Fits(EhloLine(localName))
      && forall n: nat :: Willing(world(n))
    }

    ghost predicate Greeted()
      reads this, session
    {
      && Ready() && didHello && helloError == None && session.peer.heloName != ""
      && ext == Some(ExtensionMap(Extensions(session.server, session.View())))
    }

    twostate predicate Unmoved()
      reads session
    {
      session.View() == old(session.View()) && session.deliveries == old(session.deliveries)
    }

    twostate predicate Moved(line: string, a: Answers)
      reads session
    {
      var o := Exchange(session.server, old(session.View()), line, a);
      session.Did(o, o.replies)
    }

    method ReadResponse(wanted: int) returns (r: Result<Reply, ClientError>)
      modifies `inbox, `dead
      ensures old(inbox) == [] ==> r == Err(NoReply) && dead && inbox == []
      ensures old(inbox) != [] ==>
                && inbox == old(inbox)[1..] && dead == old(dead)
                && r == if CodeMatches(old(inbox)[0].code, wanted) then Ok(old(inbox)[0])
                        else Err(Unexpected(old(inbox)[0]))
    {
      if inbox == [] {
        dead := true;
        return Err(NoReply);
      }
      var reply := inbox[0];
      inbox := inbox[1..];
      return if CodeMatches(reply.code, wanted) then Ok(reply) else Err(Unexpected(reply));
    }

    // NewClient: the greeting of a fresh session.
    method Dial() returns (err: Option<ClientError>)
      requires inbox == [] && !dead && Quiet(session)
      modifies `inbox, `dead, session
      ensures Quiet(session) && inbox == []
      ensures err == None <==> Welcomed(world(0))
      ensures old(Connected()) && (forall n: nat :: Willing(world(n))) ==>
                Connected() && session.tls == old(session.tls)
    {
      var link := world(0);
      if link.CommandLost? {
        dead := true;
        return Some(NoReply);
      }
      var replies := session.SendWelcome(link.answers);
      if link.ReplyLost? {
        dead := true;
        return Some(NoReply);
      }
      inbox := replies;
      var r := ReadResponse(220);
      return if r.Ok? then None else Some(r.error);
    }

    // One command and the first reply to it. The text is what a DATA command
    // will be followed by.
    method Cmd(wanted: int, line: string, text: string) returns (r: Result<Reply, ClientError>)
      requires inbox == []
      modifies `log, `sent, `inbox, `dead, session
      ensures sent == old(sent) + 1 && log == old(log) + [line]
      ensures r == Err(NoReply) ==>
                && dead && inbox == []
                && (Unmoved() || (!world(old(sent)).CommandLost?
                                  && Moved(line, WithText(world(old(sent)), text))))
      ensures r != Err(NoReply) ==>
                && world(old(sent)).Through? && dead == old(dead) && old(Connected())
                && var a := WithText(world(old(sent)), text);
                   var o := Exchange(session.server, old(session.View()), line, a);
                   && Moved(line, a) && o.replies != [] && inbox == o.replies[1..]
                   && r == if CodeMatches(o.replies[0].code, wanted) then Ok(o.replies[0])
                           else Err(Unexpected(o.replies[0]))
      ensures old(Connected()) && world(old(sent)).Through?
              && Exchange(session.server, old(session.View()), line, WithText(world(old(sent)), text)).replies != []
              ==> r != Err(NoReply)
      ensures if old(Connected()) && !world(old(sent)).CommandLost? then Moved(line, WithText(world(old(sent)), text))
              else Unmoved()
    {
      var link := world(sent);
      log := log + [line];
      sent := sent + 1;
      if dead || tls != session.tls || session.closed || session.crashed || link.CommandLost? {
        dead := true;
        return Err(NoReply);
      }
      var replies := session.Respond(if Fits(line) then Line(line, WithText(link, text)) else TooLong);
      if link.ReplyLost? {
        dead := true;
        return Err(NoReply);
      }
      inbox := replies;
      r := ReadResponse(wanted);
    }

    method Helo() returns (err: Option<ClientError>)
      requires inbox == []
      modifies `log, `sent, `inbox, `dead, `ext, session
      ensures inbox == []
      ensures old(Quiet(session)) ==> Quiet(session)
      ensures session.tls == old(session.tls)
      ensures ext == None && log == old(log) + [HeloLine(localName)] && sent == old(sent) + 1
      ensures old(Connected()) && Words(localName) != [] && Fits(HeloLine(localName))
              && Willing(world(old(sent))) ==>
                err == None && Connected() && session.peer.heloName != ""
    {
      hide Exchange;
      ext := None;
      var line := HeloLine(localName);
      HeloOutcome(session.server, session.View(), localName, WithText(world(sent), ""));
      var r := Cmd(250, line, "");
      return if r.Ok? then None else Some(r.error);
    }

    // The lines of the reply are the text of the message, split at its line ends.
    method Ehlo() returns (err: Option<ClientError>)
      requires inbox == []
      modifies `log, `sent, `inbox, `dead, `ext, `auth, session
      ensures inbox == []
      ensures old(Quiet(session)) ==> Quiet(session)
      ensures session.tls == old(session.tls)
      ensures log == old(log) + [EhloLine(localName)] && sent == old(sent) + 1
      ensures old(Connected()) && RefusesGreeting(world(old(sent))) ==> err.Some? && Connected()
      ensures old(Ready()) ==>
                && err == None && Ready() && session.peer.heloName != ""
                && ext == Some(ExtensionMap(Extensions(session.server, session.View())))
    {
      hide Exchange, Extensions;
      var line := EhloLine(localName);
      EhloOutcome(session.server, session.View(), localName, WithText(world(sent), ""));
      var r := Cmd(250, line, "");
      if r.Err? {
        return Some(r.error);
      }
      var extList := r.value.lines;
      var offered: map<string, string> := map[];
      if |extList| > 1 {
        extList := extList[1..];
        offered := ReadExtensions(extList);
      }
      if "AUTH" in offered {
        auth := Split(offered["AUTH"], " ");
      }
      ext := Some(offered);
      return None;
    }

    method ReadExtensions(lines: seq<string>) returns (offered: map<string, string>)
      ensures offered == ExtensionMap(lines)
    {
      offered := map[];
      for i := 0 to |lines|
        invariant offered == ExtensionMap(lines[..i])
      {
        assert lines[..i + 1][..i] == lines[..i];
        var (name, params) := ExtensionOf(lines[i]);
        offered := offered[name := params];
      }
      assert lines[..|lines|] == lines;
    }

    method Hello() returns (err: Option<ClientError>)
      requires inbox == []
      modifies `log, `sent, `inbox, `dead, `ext, `auth, `didHello, `helloError, session
      ensures inbox == [] && didHello && err == helloError
      ensures old(didHello) ==> Unmoved() && unchanged(this)
      ensures old(Quiet(session)) ==> Quiet(session)
      ensures session.tls == old(session.tls)
      ensures old(Counted()) ==> Counted()
      ensures !old(didHello) ==>
                || (err == None && log == old(log) + [EhloLine(localName)])
                || (ext == None && log == old(log) + [EhloLine(localName), HeloLine(localName)])
      ensures old(Greeted() || (Ready() && !didHello)) ==> Greeted()
      ensures old(Connected() && !didHello) && Words(localName) != [] && Fits(HeloLine(localName))
              && RefusesGreeting(world(old(sent))) && Willing(world(old(sent) + 1)) ==>
                err == None && ext == None && Connected() && session.peer.heloName != ""
    {
      if !didHello {
        didHello := true;
        err := Ehlo();
        if err.Some? {
          helloError := Helo();
        } else {
          helloError := None;
        }
      }
      return helloError;
    }

    method Extension(name: string) returns (found: bool)
      requires inbox == []
      modifies `log, `sent, `inbox, `dead, `ext, `auth, `didHello, `helloError, session
      ensures inbox == [] && didHello
      ensures old(didHello) ==> Unmoved() && unchanged(this)
      ensures old(Quiet(session)) ==> Quiet(session)
      ensures session.tls == old(session.tls)
      ensures old(Greeted() || (Ready() && !didHello)) ==>
                Greeted() && (found <==> ToUpper(name) in ExtensionMap(Extensions(session.server, session.View())))
    {
      var err := Hello();
      if err.Some? {
        return false;
      }
      if ext == None {
        return false;
      }
      return ToUpper(name) in ext.value;
    }

    // Once the server said 220, the client speaks TLS whatever the handshake did.
    method StartTls() returns (err: Option<ClientError>)
      requires inbox == []
      modifies `log, `sent, `inbox, `dead, `tls, `ext, `auth, `didHello, `helloError, session
      ensures inbox == [] && didHello
      ensures old(Quiet(session)) ==> Quiet(session)
      ensures old(Counted()) ==> Counted()
      ensures old(didHello) ==> helloError == old(helloError)
      ensures old(didHello) ==> log in {old(log), old(log) + [STARTTLS], old(log) + [STARTTLS] + [EhloLine(localName)]}
      ensures old(Greeted()) && session.server.hasTls && !old(session.tls) ==>
                err == None && Greeted() && session.tls
    {
      hide Exchange, Extensions;
      err := Hello();
      if err.Some? {
        return;
      }
      StartTlsOutcome(session.server, session.View(), WithText(world(sent), ""));
      var r := Cmd(220, STARTTLS, "");
      if r.Err? {
        return Some(r.error);
      }
      inbox := [];
      tls := true;
      err := Ehlo();
    }

    // Mail after the greeting.
    method WriteMail(from: string) returns (err: Option<ClientError>)
      requires inbox == [] && '\n' !in from
      modifies `log, `sent, `inbox, `dead, session
      ensures inbox == [] && sent == old(sent) + 1
      ensures old(Quiet(session)) ==> session.deliveries == []
      ensures log == old(log) + [MailLine(from, ext.Some? && "8BITMIME" in ext.value)]
      ensures err == None ==> world(old(sent)).Through?
      ensures err == None && world(old(sent)).answers.sender.Some? ==> Claims(world(old(sent)).answers.sender, 250)
      ensures old(Quiet(session)) && err == None ==>
                var address := Read(MailLine(from, ext.Some? && "8BITMIME" in ext.value));
                && address.Some?
                && session.envelope == if world(old(sent)).answers.sender.None?
                                       then Some(Envelope(address.value, [], "")) else None
      ensures old(Greeted() && Quiet(session)) && Mailbox(from) && (session.server.forceTls ==> old(session.tls))
              && Fits(MailLine(from, true)) ==>
                err == None && Greeted()
    {
      hide Exchange, Extensions, ExtensionMap, Words, MailLine, EhloLine, Mailbox, Claims, Read, Fits;
      var eightBit := ext.Some? && "8BITMIME" in ext.value;
      ShorterMail(from, eightBit);
      MailOutcome(session.server, session.View(), from, eightBit, WithText(world(sent), ""));
      ghost var before := session.View();
      var r := Cmd(250, MailLine(from, eightBit), "");
      ExtensionsByTls(session.server, before, session.View());
      return if r.Ok? then None else Some(r.error);
    }

    method Mail(from: string) returns (err: Option<ClientError>)
      requires inbox == [] && '\n' !in from
      modifies `log, `sent, `inbox, `dead, `ext, `auth, `didHello, `helloError, session
      ensures inbox == [] && didHello
      ensures old(Quiet(session)) ==> session.deliveries == []
      ensures old(didHello) ==> helloError == old(helloError)
      ensures old(didHello) && helloError == None ==>
                ext == old(ext) && log == old(log) + [MailLine(from, ext.Some? && "8BITMIME" in ext.value)]
      ensures err == None ==> sent >= 1 && world(sent - 1).Through? && helloError == None
      ensures err == None && world(sent - 1).answers.sender.Some? ==> Claims(world(sent - 1).answers.sender, 250)
      ensures old(Counted()) ==> Counted()
      ensures old(Quiet(session)) && err == None ==>
                var address := Read(MailLine(from, ext.Some? && "8BITMIME" in ext.value));
                && address.Some?
                && session.envelope == if world(sent - 1).answers.sender.None?
                                       then Some(Envelope(address.value, [], "")) else None
      ensures old(Greeted() && Quiet(session)) && Mailbox(from) && (session.server.forceTls ==> old(session.tls))
              && Fits(MailLine(from, true)) ==>
                err == None && Greeted()
    {
      hide Extensions, ExtensionMap, Words, MailLine, EhloLine, HeloLine, Mailbox, Claims, Read, Fits, Willing;
      err := Hello();
      if err.Some? {
        return;
      }
      err := WriteMail(from);
    }

    method Rcpt(to: string) returns (err: Option<ClientError>)
      requires inbox == [] && '\n' !in to
      modifies `log, `sent, `inbox, `dead, session
      ensures inbox == [] && session.deliveries == old(session.deliveries)
      ensures log == old(log) + [RcptLine(to)]
      ensures sent == old(sent) + 1
      ensures err == None ==>
                && world(old(sent)).Through? && old(session.envelope.Some?) && Read(RcptLine(to)).Some?
                && session.envelope
                   == Some(WithRcpt(old(session.envelope).value, world(old(sent)).answers, Read(RcptLine(to)).value))
      ensures err == None && RcptRefused(world(old(sent))) ==> Claims(world(old(sent)).answers.recipient, 259)
      ensures old(Greeted()) && Mailbox(to) && Fits(RcptLine(to)) && old(session.envelope.Some?)
              && |old(session.envelope).value.recipients| < session.server.maxRecipients ==>
                err == None && Greeted()
    {
      hide Exchange, Extensions, Read, RcptLine;
      ghost var before := session.View();
      RcptOutcome(session.server, before, to, WithText(world(sent), ""));
      var r := Cmd(25, RcptLine(to), "");
      ExtensionsByTls(session.server, before, session.View());
      return if r.Ok? then None else Some(r.error);
    }

    // At most one Handler call, with this text and the open envelope.
    twostate predicate Delivered(text: string)
      reads this, session
    {
      var link := world(old(sent));
      && old(session.envelope.Some?) && session.server.hasHandler && !link.CommandLost?
      && session.deliveries == old(session.deliveries)
           + [Delivery(old(session.peer), old(session.envelope).value.(data := text), link.answers.handler)]
    }

    // Data, Write and Close of the writer.
    method Data(msg: string) returns (err: Option<ClientError>)
      requires inbox == []
      modifies `log, `sent, `inbox, `dead, session
      ensures inbox == [] && log == old(log) + ["DATA"]
      ensures session.deliveries == old(session.deliveries) || Delivered(transfer(msg))
      ensures err == None && session.server.hasHandler ==>
                Delivered(transfer(msg)) && Accepts(world(old(sent)).answers.handler)
      ensures err == None ==> Connected()
      ensures sent == old(sent) + 1
      ensures old(Greeted()) && old(session.envelope).Some? && old(session.envelope).value.recipients != []
              && |transfer(msg)| < session.server.maxMessageSize ==>
                err == None && Greeted()
    {
      hide Exchange, Extensions;
      ghost var before := session.View();
      DataOutcome(session.server, before, WithText(world(sent), transfer(msg)));
      var r := Cmd(354, "DATA", transfer(msg));
      ExtensionsByTls(session.server, before, session.View());
      if r.Err? {
        return Some(r.error);
      }
      r := ReadResponse(250);
      return if r.Ok? then None else Some(r.error);
    }

    method Quit() returns (err: Option<ClientError>)
      requires inbox == []
      modifies `log, `sent, `inbox, `dead, `ext, `auth, `didHello, `helloError, session
      ensures old(didHello) ==> session.deliveries == old(session.deliveries) && helloError == old(helloError)
      ensures old(didHello) && helloError == None ==> log == old(log) + ["QUIT"]
      ensures err == None ==> dead
      ensures old(didHello && Connected()) && helloError == None ==>
                && (err == None <==> world(old(sent)).Through?)
                && (session.closed <==> !world(old(sent)).CommandLost?)
      ensures old(Greeted()) ==> err == None && session.closed
    {
      hide Exchange, Extensions;
      err := Hello();
      if err.Some? {
        return;
      }
      QuitOutcome(session.server, session.View(), WithText(world(sent), ""));
      var r := Cmd(221, "QUIT", "");
      if r.Err? {
        return Some(r.error);
      }
      dead := true;
    }

    // ----- SendMail, in three parts -------------------------------------------

    // Dial, greeting, and TLS if the server offers it.
    method Open(host: string) returns (err: Option<ClientError>)
      requires inbox == [] && !dead && !didHello && Quiet(session)
      modifies this, session
      ensures Quiet(session) && inbox == []
      ensures old(Counted()) ==> Counted()
      ensures err == None ==> didHello && helloError == None
      ensures old(log) == [] ==> Greeting(log, host)
      ensures old(Connected()) && Words(host) != [] && Fits(EhloLine(host)) && (forall n: nat :: Willing(world(n))) ==>
                err == None && Greeted() && (session.server.hasTls ==> session.tls)
    {
      hide Extensions, ExtensionMap, Words, Willing, Welcomed, ToUpper;
      WillingWelcomes(world(0));
      err := Dial();
      if err.Some? {
        return;
      }
      localName := host;
      err := Hello();
      if err.Some? {
        return;
      }
      UpperAlready(STARTTLS);
      var canSecure := Extension(STARTTLS);
      StartTlsOfferedIff(session.server, session.View());
      if canSecure {
        err := StartTls();
      }
    }

    // MAIL and every RCPT: the envelope as the server read it. A refusal is not
    // noticed exactly if it is coded as a success.
    method Address(from: string, to: seq<string>) returns (err: Option<ClientError>)
      requires inbox == [] && didHello && helloError == None && Counted() && Quiet(session)
      requires '\n' !in from && forall i :: 0 <= i < |to| ==> '\n' !in to[i]
      modifies `log, `sent, `inbox, `dead, `ext, `auth, `didHello, `helloError, session
      ensures inbox == [] && didHello && session.deliveries == []
      ensures Counted()
      ensures exists k: nat :: k <= |to| && Begun(log, old(log), from, to, k)
      ensures err == None ==> helloError == None
      ensures err == None ==> forall i :: 0 <= i < |to| ==> Read(RcptLine(to[i])).Some?
      ensures err == None ==>
                |log| == |old(log)| + 1 + |to| && log[..|old(log)|] == old(log) && Addressed(log, |old(log)|, from, to)
      ensures err == None && session.envelope.Some? ==>
                && Read(log[|old(log)|]) == Some(session.envelope.value.sender)
                && session.envelope.value.recipients == Kept(world, sent - |to|, to)
                && world(old(sent)).Through? && world(old(sent)).answers.sender == None
      ensures err == None ==> RefusalsClaim(world, sent - |to|, |to|)
      ensures old(Greeted()) && Mailboxes(from, to) && FitAll(from, to) && |to| <= session.server.maxRecipients
              && (session.server.forceTls ==> old(session.tls)) && (forall n: nat :: Willing(world(n))) ==>
                && err == None && Greeted() && session.envelope.Some? && |session.envelope.value.recipients| == |to|
    {
      hide Extensions, Mailbox, Read, MailLine, RcptLine, Claims, ExtensionMap, EhloLine, Begun, Progress;
      ghost var opening := log;
      ghost var well := Greeted() && Mailboxes(from, to) && FitAll(from, to) && |to| <= session.server.maxRecipients
                        && (session.server.forceTls ==> session.tls) && (forall n: nat :: Willing(world(n)));
      err := Mail(from);
      ghost var first := sent;
      NoneWritten(opening, log, from, to);
      if err.Some? {
        return;
      }
      NoProgress(world, first, opening, log, from, to, session.envelope);
      for i := 0 to |to|
        invariant err == None && inbox == [] && didHello && helloError == None && session.deliveries == []
        invariant Counted() && sent == first + i
        invariant Progress(world, first, opening, log, from, to, i, session.envelope)
        invariant well ==> Greeted() && session.envelope.Some? && |session.envelope.value.recipients| == i
      {
        ghost var lines, envelope := log, session.envelope;
        err := Rcpt(to[i]);
        OneWritten(world, first, opening, lines, from, to, i, envelope);
        if err.Some? {
          return;
        }
        OneMore(world, first, opening, lines, from, to, i, envelope, session.envelope);
      }
      AllDone(world, first, opening, log, from, to, session.envelope);
    }

    // The message after the greeting: MAIL, the RCPT commands and DATA.
    method Transfer(from: string, to: seq<string>, msg: string) returns (err: Option<ClientError>)
      requires inbox == [] && didHello && helloError == None && Counted() && Quiet(session)
      requires '\n' !in from && forall i :: 0 <= i < |to| ==> '\n' !in to[i]
      modifies `log, `sent, `inbox, `dead, `ext, `auth, `didHello, `helloError, session
      ensures inbox == [] && Counted()
      ensures err == None ==> didHello && helloError == None && Connected()
      ensures Sent(log, old(log), from, to)
              || (err.Some? && exists k: nat :: k <= |to| && Begun(log, old(log), from, to, k))
      ensures |session.deliveries| <= 1
      ensures session.deliveries != [] ==>
                && Sent(log, old(log), from, to)
                && AsRead(session.deliveries[0].envelope, world, log, |old(log)| + 1, from, to)
                && session.deliveries[0].envelope.data == transfer(msg)
      ensures err == None && session.server.hasHandler ==>
                |session.deliveries| == 1 && Accepts(session.deliveries[0].result)
      ensures old(Greeted()) && Mailboxes(from, to) && FitAll(from, to) && 0 < |to| <= session.server.maxRecipients
              && (session.server.forceTls ==> old(session.tls)) && (forall n: nat :: Willing(world(n)))
              && |transfer(msg)| < session.server.maxMessageSize ==>
                err == None && Greeted()
    {
      hide Extensions, Mailboxes, Mailbox, Read, MailLine, RcptLine, FitAll, Begun, Words, Fits;
      hide Addressed, RefusalsClaim, AsRead, Kept, EhloLine, Willing, Claims, Accepts, ExtensionMap;
      ghost var opening := log;
      err := Address(from, to);
      if err.Some? {
        return;
      }
      ghost var lines := log;
      SentIs(opening, lines, from, to);
      if session.envelope.Some? {
        EnvelopeRead(session.envelope.value, world, lines, |opening| + 1, from, to);
        SameRead(session.envelope.value, world, lines, ["DATA"], |opening| + 1, from, to);
      }
      err := Data(msg);
    }
  }

  // ----- The commands of a conversation ---------------------------------------

  // What is written before MAIL.
  predicate Greeting(lines: seq<string>, host: string) {
    forall i :: 0 <= i < |lines| ==> lines[i] in {EhloLine(host), HeloLine(host), STARTTLS}
  }

  // Command number at is MAIL, and the RCPT commands follow it.
  predicate Addressed(lines: seq<string>, at: nat, from: string, to: seq<string>) {
    && at + |to| < |lines|
    && lines[at] in {MailLine(from, false), MailLine(from, true)}
    && forall i :: 0 <= i < |to| ==> lines[at + 1 + i] == RcptLine(to[i])
  }

  // A refusal in one of these exchanges was coded 25x.
  ghost predicate RefusalsClaim(world: nat -> Link, first: nat, n: nat) {
    forall k: nat :: first <= k < first + n && RcptRefused(world(k)) ==> Claims(world(k).answers.recipient, 259)
  }

  // No RecipientChecker refuses with a code from 250 to 259.
  ghost predicate PlainRefusals(world: nat -> Link) {
    forall n: nat :: RcptRefused(world(n)) ==> !Claims(world(n).answers.recipient, 259)
  }

  // MAIL and the first k RCPT commands were written behind the opening.
  predicate Begun(lines: seq<string>, opening: seq<string>, from: string, to: seq<string>, k: nat) {
    && k <= |to| && |lines| == |opening| + 1 + k && lines[..|opening|] == opening
    && Addressed(lines, |opening|, from, to[..k])
  }

  lemma NoneWritten(opening: seq<string>, lines: seq<string>, from: string, to: seq<string>)
    requires exists eightBit :: lines == opening + [MailLine(from, eightBit)]
    ensures Begun(lines, opening, from, to, 0) && |lines| == |opening| + 1
  {
    hide MailLine;
  }

  lemma OneBegun(lines: seq<string>, opening: seq<string>, from: string, to: seq<string>, i: nat)
    requires i < |to| && Begun(lines, opening, from, to, i)
    ensures Begun(lines + [RcptLine(to[i])], opening, from, to, i + 1)
    ensures (lines + [RcptLine(to[i])])[|opening|] == lines[|opening|]
  {
    hide RcptLine, MailLine;
    var longer := lines + [RcptLine(to[i])];
    assert longer[..|opening|] == lines[..|opening|];
    assert forall k :: 0 <= k < i ==>
        longer[|opening| + 1 + k] == lines[|opening| + 1 + k] && to[..i + 1][k] == to[..i][k];
  }

  // After MAIL and i RCPT commands without an error: the commands, the refusals,
  // and the envelope as the server read it. The first RCPT is exchange number first.
  ghost predicate Progress(world: nat -> Link, first: nat, opening: seq<string>, lines: seq<string>,
                           from: string, to: seq<string>, i: nat, envelope: Option<Envelope>)
  {
    && Begun(lines, opening, from, to, i)
    && (forall k :: 0 <= k < i ==> Read(RcptLine(to[k])).Some?)
    && RefusalsClaim(world, first, i)
    && (envelope.Some? ==>
          && first >= 1 && world(first - 1).Through? && world(first - 1).answers.sender == None
          && Read(lines[|opening|]) == Some(envelope.value.sender)
          && envelope.value.recipients == Kept(world, first, to[..i]))
  }

  lemma NoProgress(world: nat -> Link, first: nat, opening: seq<string>, lines: seq<string>,
                   from: string, to: seq<string>, envelope: Option<Envelope>)
    requires Begun(lines, opening, from, to, 0)
    requires envelope.Some? ==>
               && first >= 1 && world(first - 1).Through? && world(first - 1).answers.sender == None
               && Read(lines[|opening|]) == Some(envelope.value.sender) && envelope.value.recipients == []
    ensures Progress(world, first, opening, lines, from, to, 0, envelope)
  {
    hide Begun, Read;
  }

  lemma OneWritten(world: nat -> Link, first: nat, opening: seq<string>, lines: seq<string>,
                   from: string, to: seq<string>, i: nat, envelope: Option<Envelope>)
    requires i < |to| && Progress(world, first, opening, lines, from, to, i, envelope)
    ensures Begun(lines + [RcptLine(to[i])], opening, from, to, i + 1)
  {
    hide Begun, Read, RcptLine;
    OneBegun(lines, opening, from, to, i);
  }

  lemma OneMore(world: nat -> Link, first: nat, opening: seq<string>, lines: seq<string>,
                from: string, to: seq<string>, i: nat, before: Option<Envelope>, after: Option<Envelope>)
    requires i < |to| && Progress(world, first, opening, lines, from, to, i, before)
    requires world(first + i).Through? && before.Some? && Read(RcptLine(to[i])).Some?
    requires after == Some(WithRcpt(before.value, world(first + i).answers, Read(RcptLine(to[i])).value))
    requires RcptRefused(world(first + i)) ==> Claims(world(first + i).answers.recipient, 259)
    ensures Progress(world, first, opening, lines + [RcptLine(to[i])], from, to, i + 1, after)
  {
    hide Begun, Read, RcptLine, Claims;
    OneBegun(lines, opening, from, to, i);
    assert to[..i + 1][..i] == to[..i];
  }

  lemma AllDone(world: nat -> Link, first: nat, opening: seq<string>, lines: seq<string>,
                from: string, to: seq<string>, envelope: Option<Envelope>)
    requires Progress(world, first, opening, lines, from, to, |to|, envelope)
    ensures Begun(lines, opening, from, to, |to|)
    ensures |lines| == |opening| + 1 + |to| && lines[..|opening|] == opening && Addressed(lines, |opening|, from, to)
    ensures forall i :: 0 <= i < |to| ==> Read(RcptLine(to[i])).Some?
    ensures RefusalsClaim(world, first, |to|)
    ensures envelope.Some? ==>
              && first >= 1 && world(first - 1).Through? && world(first - 1).answers.sender == None
              && Read(lines[|opening|]) == Some(envelope.value.sender)
              && envelope.value.recipients == Kept(world, first, to)
  {
    hide Read, RcptLine, MailLine, Claims;
    assert to[..|to|] == to;
  }

  predicate FitAll(from: string, to: seq<string>) {
    Fits(MailLine(from, true)) && forall i :: 0 <= i < |to| ==> Fits(RcptLine(to[i]))
  }

  // ----- SendMail -------------------------------------------------------------

  predicate OneLine(s: string) {
    '\n' !in s
  }

  // Everything works: the network, every callback, and the configuration.
  ghost predicate AllWell(
    server: Config, world: nat -> Link, host: string, from: string, to: seq<string>, text: string)
  {
    && (forall n: nat :: Willing(world(n)))
    && (server.forceTls ==> server.hasTls)
    && Words(host) != [] && Mailboxes(from, to)
    && Fits(EhloLine(host)) && FitAll(from, to)
    && 0 < |to| <= server.maxRecipients
    && |text| < server.maxMessageSize
  }

  // The commands up to DATA, the one at first being the first RCPT.
  predicate Conversation(lines: seq<string>, first: nat, host: string, from: string, to: seq<string>) {
    && 1 <= first && |lines| == first + |to| + 1
    && Greeting(lines[..first - 1], host) && Addressed(lines, first - 1, from, to) && lines[first + |to|] == "DATA"
  }

  // The commands of a conversation that ends before its message is accepted.
  ghost predicate Interrupted(lines: seq<string>, host: string, from: string, to: seq<string>) {
    || Greeting(lines, host)
    || (exists opening, k: nat :: k <= |to| && Greeting(opening, host) && Begun(lines, opening, from, to, k))
    || (exists first: nat :: Conversation(lines, first, host, from, to))
  }

  // MAIL, all RCPT commands and DATA were written behind the opening.
  predicate Sent(lines: seq<string>, opening: seq<string>, from: string, to: seq<string>) {
    && |lines| == |opening| + 2 + |to| && lines[..|opening|] == opening
    && Addressed(lines, |opening|, from, to) && lines[|opening| + 1 + |to|] == "DATA"
  }

  lemma SentIs(opening: seq<string>, lines: seq<string>, from: string, to: seq<string>)
    requires |lines| == |opening| + 1 + |to| && lines[..|opening|] == opening
    requires Addressed(lines, |opening|, from, to)
    ensures Sent(lines + ["DATA"], opening, from, to)
  {
    assert (lines + ["DATA"])[..|opening|] == opening;
  }

  lemma ConversationOf(opening: seq<string>, lines: seq<string>, host: string, from: string, to: seq<string>)
    requires Greeting(opening, host) && Sent(lines, opening, from, to)
    ensures Conversation(lines, |opening| + 1, host, from, to) && |lines| == |opening| + 2 + |to|
  {
    hide Greeting;
  }

  // An envelope as the server read it from such a conversation: MAIL was not
  // refused, and a refused RCPT was refused with a code 25x.
  ghost predicate AsRead(
    e: Envelope, world: nat -> Link, lines: seq<string>, first: nat, from: string, to: seq<string>)
    requires 1 <= first <= |lines|
  {
    && world(first).Through? && world(first).answers.sender == None
    && Read(lines[first - 1]) == Some(e.sender)
    && (e.sender == from <==> Mailbox(from))
    && e.recipients == Kept(world, first + 1, to)
    && (e.recipients == to <==> AllTaken(world, first + 1, to))
    && RefusalsClaim(world, first + 1, |to|)
  }

  // Without refusals coded 25x the addresses of mailboxes come through.
  lemma ReadAsSent(
    e: Envelope, world: nat -> Link, lines: seq<string>, first: nat, from: string, to: seq<string>)
    requires 1 <= first <= |lines| && AsRead(e, world, lines, first, from, to)
    requires Mailboxes(from, to) && PlainRefusals(world)
    ensures e.sender == from && e.recipients == to
  {
    hide Mailbox, Read, Kept;
    assert AllTaken(world, first + 1, to);
  }

  lemma EnvelopeRead(
    e: Envelope, world: nat -> Link, lines: seq<string>, first: nat, from: string, to: seq<string>)
    requires 1 <= first && first + |to| <= |lines| && Addressed(lines, first - 1, from, to)
    requires world(first).Through? && world(first).answers.sender == None
    requires Read(lines[first - 1]) == Some(e.sender) && e.recipients == Kept(world, first + 1, to)
    requires RefusalsClaim(world, first + 1, |to|) && forall i :: 0 <= i < |to| ==> Read(RcptLine(to[i])).Some?
    ensures AsRead(e, world, lines, first, from, to)
  {
    hide Read, MailLine, RcptLine, Mailbox, Kept, AllTaken, RefusalsClaim;
    KeptIsAllIff(world, first + 1, to);
    MailIsRead(from, true);
    MailIsRead(from, false);
  }

  lemma SameRead(
    e: Envelope, world: nat -> Link, lines: seq<string>, more: seq<string>, first: nat, from: string, to: seq<string>)
    requires 1 <= first <= |lines| && AsRead(e, world, lines, first, from, to)
    ensures forall text: string :: AsRead(e.(data := text), world, lines + more, first, from, to)
  {
    hide Read, Mailbox, Kept, AllTaken, RefusalsClaim;
  }

  // The client's whole conversation with a fresh session, without
  // authentication. Accepted says whether the message data was answered 250;
  // then the Handler was called once and did not refuse, QUIT is written, and the
  // client succeeds exactly if that exchange does. Any Handler call has this text,
  // and the sender and the recipients in order as the server read them, less the
  // refused ones; the MAIL was not refused, and a refused RCPT was refused with a
  // code 25x. So without such refusals mailbox addresses reach the Handler as they
  // are. The commands written are lines, first being the number of the first RCPT
  // among them; command number i is exchange number i + 1.
  method SendMail(server: Config, world: nat -> Link, transfer: string -> string,
                  host: string, from: string, to: seq<string>, msg: string)
    returns (err: Option<ClientError>, session: SmtpSession, ghost accepted: bool,
             ghost lines: seq<string>, ghost first: nat)
    requires OneLine(host) && OneLine(from) && forall i :: 0 <= i < |to| ==> OneLine(to[i])
    ensures fresh(session) && session.server == server
    ensures accepted ==>
              && |lines| == first + |to| + 2 && Conversation(lines[..first + |to| + 1], first, host, from, to)
              && lines[first + |to| + 1] == "QUIT"
              && (err == None <==> world(|lines|).Through?)
              && (session.closed <==> !world(|lines|).CommandLost?)
    ensures !accepted ==> err.Some? && Interrupted(lines, host, from, to)
    ensures |session.deliveries| <= 1
    ensures session.deliveries != [] ==>
              && first + |to| < |lines| && Conversation(lines[..first + |to| + 1], first, host, from, to)
              && AsRead(session.deliveries[0].envelope, world, lines, first, from, to)
              && session.deliveries[0].envelope.data == transfer(msg)
    ensures session.deliveries != [] && Mailboxes(from, to) && PlainRefusals(world) ==>
              session.deliveries[0].envelope == Envelope(from, to, transfer(msg))
    ensures accepted && server.hasHandler ==>
              |session.deliveries| == 1 && Accepts(session.deliveries[0].result)
    ensures AllWell(server, world, host, from, to, transfer(msg)) ==> err == None && session.closed
  {
    hide Extensions, Mailboxes, Mailbox, Read, MailLine, RcptLine, FitAll, Begun, Interrupted;
    hide Greeting, Addressed, RefusalsClaim, PlainRefusals, AsRead, Conversation, Kept;
    hide EhloLine, Willing, Claims, Accepts, ExtensionMap, Words, Fits, Sent;
    accepted, lines, first := false, [], 1;
    session := new SmtpSession(server);
    var c := new Client(session, world, transfer, "localhost");
    err := c.Open(host);
    ghost var opening := c.log;
    lines := opening;
    if err.Some? {
      InterruptedEarly(lines, host, from, to);
      return;
    }
    err := c.Transfer(from, to, msg);
    lines := c.log;
    first := |opening| + 1;
    if Sent(lines, opening, from, to) {
      ConversationOf(opening, lines, host, from, to);
      InterruptedLate(lines, first, host, from, to);
      assert lines[..first + |to| + 1] == lines;
    } else {
      InterruptedMidway(lines, opening, host, from, to);
    }
    if session.deliveries != [] && Mailboxes(from, to) && PlainRefusals(world) {
      ReadAsSent(session.deliveries[0].envelope, world, lines, first, from, to);
    }
    if err.Some? {
      return;
    }
    accepted := true;
    ghost var conversation := lines;
    err := c.Quit();
    lines := c.log;
    assert lines[..first + |to| + 1] == conversation;
    if session.deliveries != [] {
      SameRead(session.deliveries[0].envelope, world, conversation, ["QUIT"], first, from, to);
    }
  }

  lemma InterruptedEarly(lines: seq<string>, host: string, from: string, to: seq<string>)
    requires Greeting(lines, host)
    ensures Interrupted(lines, host, from, to)
  {
  }

  lemma InterruptedMidway(
    lines: seq<string>, opening: seq<string>, host: string, from: string, to: seq<string>)
    requires Greeting(opening, host) && exists k: nat :: k <= |to| && Begun(lines, opening, from, to, k)
    ensures Interrupted(lines, host, from, to)
  {
    hide Greeting, Begun;
  }

  lemma InterruptedLate(lines: seq<string>, first: nat, host: string, from: string, to: seq<string>)
    requires Conversation(lines, first, host, from, to)
    ensures Interrupted(lines, host, from, to)
  {
    hide Conversation;
  }
}
