// The SMTP server session: smtpd/protocol.go, smtpd/smtpd.go, smtpd/address.go.
// The functions say what every command does to the session and what it
// answers; the class at the end is the session the program runs.
module Session {
  import opened Wrappers
  import opened Text

  // ----- Data -----------------------------------------------------------------

  datatype Protocol = NoProtocol | SMTP | ESMTP

  datatype Peer = Peer(
    heloName: string, username: string, password: string, protocol: Protocol, serverName: string, tls: bool)

  datatype Envelope = Envelope(sender: string, recipients: seq<string>, data: string)

  // An error of a callback: smtpd.Error with its own code, or any other error.
  datatype Failure = Coded(code: int, message: string) | Plain(message: string)

  datatype Config = Config(
    hostname: string, welcomeMessage: string, maxMessageSize: int, maxRecipients: int,
    hasHandler: bool, hasAuthenticator: bool, enableXclient: bool, hasTls: bool, forceTls: bool, tcp: bool)

  datatype State = State(peer: Peer, envelope: Option<Envelope>, tls: bool, closed: bool, crashed: bool)

  datatype Reply = Reply(code: int, lines: seq<string>)

  // The message text after dot decoding, or a broken connection.
  datatype DataInput = Received(text: string) | Broken

  // Base64 input of an AUTH exchange: the connection is gone, the text does not
  // decode, or what it decodes to.
  datatype AuthLine = Lost | Garbled | Decoded(text: string)

  // Results of the callbacks (None: no callback, or no error) and of foreign
  // code during one command.
  datatype Answers = Answers(
    connection: Option<Failure>, helo: Option<Failure>, sender: Option<Failure>, recipient: Option<Failure>,
    handler: Option<Failure>, authenticator: Option<Failure>,
    handshake: bool, data: DataInput, auth: seq<AuthLine>)

  // One call of the Handler and what it returned.
  datatype Delivery = Delivery(peer: Peer, envelope: Envelope, result: Option<Failure>)

  datatype Outcome = Outcome(state: State, replies: seq<Reply>, delivery: Option<Delivery>)

  // ----- Defaults -------------------------------------------------------------

  const DEFAULT_HOSTNAME := "localhost.localdomain"
  const NO_TLS := "Cannot use ForceTLS with no TLSConfig"

  function DefaultWelcome(hostname: string): string {
    hostname + " ESMTP ready."
  }

  function WithLimits(c: Config): Config {
    c.(maxMessageSize := if c.maxMessageSize == 0 then 10240000 else c.maxMessageSize,
       maxRecipients := if c.maxRecipients == 0 then 100 else c.maxRecipients)
  }

  function WithNames(c: Config): Config {
    var hostname := if c.hostname == "" then DEFAULT_HOSTNAME else c.hostname;
    c.(hostname := hostname,
       welcomeMessage := if c.welcomeMessage == "" then DefaultWelcome(hostname) else c.welcomeMessage)
  }

  function Configured(c: Config): Result<Config, string> {
    if c.forceTls && !c.hasTls then Err(NO_TLS) else Ok(WithNames(WithLimits(c)))
  }

  // What is not set gets these values; what is set stays.
  lemma DefaultsGiven(c: Config)
    requires Configured(c).Ok?
    ensures var d := Configured(c).value;
            && d.maxMessageSize == (if c.maxMessageSize == 0 then 10240000 else c.maxMessageSize)
            && d.maxRecipients == (if c.maxRecipients == 0 then 100 else c.maxRecipients)
            && d.hostname == (if c.hostname == "" then "localhost.localdomain" else c.hostname)
            && d.welcomeMessage == (if c.welcomeMessage == "" then d.hostname + " ESMTP ready." else c.welcomeMessage)
            && d == c.(maxMessageSize := d.maxMessageSize, maxRecipients := d.maxRecipients,
                       hostname := d.hostname, welcomeMessage := d.welcomeMessage)
    ensures !(c.forceTls && !c.hasTls)
  {
  }

  lemma DefaultsAreStable(c: Config)
    requires Configured(c).Ok?
    ensures Configured(Configured(c).value) == Configured(c)
    ensures Configured(c).value.maxRecipients != 0 && Configured(c).value.maxMessageSize != 0
    ensures Configured(c).value.forceTls ==> Configured(c).value.hasTls
  {
  }

  // ----- Commands -------------------------------------------------------------

  datatype Command = Command(action: string, fields: seq<string>, params: seq<string>)

  // The first word of a text that begins with one.
  function WordLength(s: string): (n: nat)
    ensures n <= |s|
  {
    if s == "" || s[0] in SPACE then 0 else 1 + WordLength(s[1..])
  }

  // strings.Fields
  function Words(s: string): seq<string>
    decreases |s|
  {
    TrimLeftParts(s, SPACE);
    var t := TrimLeft(s, SPACE);
    if t == "" then [] else [t[..WordLength(t)]] + Words(t[WordLength(t)..])
  }

  function ParseLine(line: string): Command {
    var fields := Words(line);
    Command(
      if fields == [] then "" else ToUpper(fields[0]),
      fields,
      if |fields| > 1 then Split(fields[1], ":") else [])
  }

  function CountAt(s: string): nat {
    if s == "" then 0 else (if s[0] == '@' then 1 else 0) + CountAt(s[1..])
  }

  // parseAddress: the text between angle brackets.
  function ParseAddress(src: string): Option<string> {
    if |src| == 0 || src[0] != '<' || src[|src| - 1] != '>' then None
    else if CountAt(src) > 1 then None
    else Some(src[1..|src| - 1])
  }

  // ----- One command ----------------------------------------------------------

  function Answer(s: State, code: int, text: string): Outcome {
    Outcome(s, [Reply(code, [text])], None)
  }

  function Reset(s: State): State {
    s.(envelope := None)
  }

  // session.error
  function Refuse(s: State, e: Failure): Outcome {
    match e
    case Coded(code, message) => Answer(s, code, message)
    case Plain(message) => Answer(s, 502, message)
  }

  // A repeated greeting drops the envelope.
  function Greeted(s: State): State {
    if s.peer.heloName != "" then Reset(s) else s
  }

  function Helo(c: Config, s: State, cmd: Command, a: Answers): Outcome {
    if |cmd.fields| < 2 then Answer(s, 502, "Missing parameter")
    else
      var s1 := Greeted(s);
      if a.helo.Some? then Refuse(s1, a.helo.value)
      else Answer(s1.(peer := s1.peer.(heloName := cmd.fields[1], protocol := SMTP)), 250, "Go ahead")
  }

  function Digits(n: nat): string {
    if n < 10 then [('0' as int + n) as char] else Digits(n / 10) + [('0' as int + n % 10) as char]
  }

  function Decimal(n: int): string {
    if n < 0 then "-" + Digits(-n) else Digits(n)
  }

  function Extensions(c: Config, s: State): (r: seq<string>)
    ensures |r| >= 3
  {
    ["SIZE " + Decimal(c.maxMessageSize), "8BITMIME", "PIPELINING"]
    + (if c.enableXclient then ["XCLIENT"] else [])
    + (if c.hasTls && !s.tls then ["STARTTLS"] else [])
    + (if c.hasAuthenticator && s.tls then ["AUTH PLAIN LOGIN"] else [])
  }

  function Ehlo(c: Config, s: State, cmd: Command, a: Answers): Outcome {
    if |cmd.fields| < 2 then Answer(s, 502, "Missing parameter")
    else
      var s1 := Greeted(s);
      if a.helo.Some? then Refuse(s1, a.helo.value)
      else
        var s2 := s1.(peer := s1.peer.(heloName := cmd.fields[1], protocol := ESMTP));
        Outcome(s2, [Reply(250, [c.hostname] + Extensions(c, s2))], None)
  }

  // The address parameter of MAIL and RCPT.
  function AddressOf(cmd: Command): Option<string> {
    if |cmd.params| < 2 then None else ParseAddress(cmd.params[1])
  }

  function Mail(c: Config, s: State, cmd: Command, a: Answers): Outcome {
    if s.peer.heloName == "" then Answer(s, 502, "Please introduce yourself first.")
    else if !s.tls && c.forceTls then Answer(s, 502, "Please turn on TLS by issuing a STARTTLS command.")
    else if s.envelope.Some? then Answer(s, 502, "Duplicate MAIL")
    else if AddressOf(cmd).None? then Answer(s, 502, "Ill-formatted e-mail address")
    else if a.sender.Some? then Refuse(s, a.sender.value)
    else Answer(s.(envelope := Some(Envelope(AddressOf(cmd).value, [], ""))), 250, "Go ahead")
  }

  function Rcpt(c: Config, s: State, cmd: Command, a: Answers): Outcome {
    if s.envelope.None? then Answer(s, 502, "Missing MAIL FROM command.")
    else if |s.envelope.value.recipients| >= c.maxRecipients then Answer(s, 452, "Too many recipients")
    else if AddressOf(cmd).None? then Answer(s, 502, "Ill-formatted e-mail address")
    else if a.recipient.Some? then Refuse(s, a.recipient.value)
    else
      var e := s.envelope.value;
      Answer(s.(envelope := Some(e.(recipients := e.recipients + [AddressOf(cmd).value]))), 250, "Go ahead")
  }

  function StartTls(c: Config, s: State, a: Answers): Outcome {
    if s.tls then Answer(s, 502, "Already running in TLS")
    else if !c.hasTls then Answer(s, 502, "TLS not supported")
    else if !a.handshake then
      Outcome(s, [Reply(220, ["Go ahead"]), Reply(550, ["Handshake error"])], None)
    else
      Outcome(Reset(s).(tls := true, peer := s.peer.(tls := true)), [Reply(220, ["Go ahead"])], None)
  }

  const GO_DATA := Reply(354, ["Go ahead. End your data with <CR><LF>.<CR><LF>"])

  function Data(c: Config, s: State, a: Answers): Outcome {
    if s.envelope.None? || s.envelope.value.recipients == [] then
      Answer(s, 502, "Missing RCPT TO command.")
    else if a.data.Broken? then Outcome(s, [GO_DATA], None)
    else if |a.data.text| < c.maxMessageSize then
      var e := s.envelope.value.(data := a.data.text);
      var delivery := if c.hasHandler then Some(Delivery(s.peer, e, a.handler)) else None;
      var verdict := if c.hasHandler && a.handler.Some? then Refuse(s, a.handler.value).replies
                     else [Reply(250, ["Thank you."])];
      Outcome(Reset(s), [GO_DATA] + verdict, delivery)
    else
      Outcome(Reset(s),
              [GO_DATA, Reply(552, ["Message exceeded max message size of " + Decimal(c.maxMessageSize) + " bytes"])],
              None)
  }

  function AuthLineAt(a: Answers, i: nat): AuthLine {
    if i < |a.auth| then a.auth[i] else Lost
  }

  const BAD_CREDENTIALS := Reply(502, ["Couldn't decode your credentials"])
  const ASK_PLAIN := Reply(334, ["Give me your credentials"])
  const ASK_USERNAME := Reply(334, ["VXNlcm5hbWU6"])
  const ASK_PASSWORD := Reply(334, ["UGFzc3dvcmQ6"])

  // The end of AUTH: the Authenticator decides.
  function Authenticate(s: State, before: seq<Reply>, username: string, password: string, a: Answers): Outcome {
    if a.authenticator.Some? then Outcome(s, before + Refuse(s, a.authenticator.value).replies, None)
    else
      Outcome(s.(peer := s.peer.(username := username, password := password)),
              before + [Reply(235, ["OK, you are now authenticated"])], None)
  }

  function AuthPlain(s: State, inline: bool, a: Answers): Outcome {
    var before := if inline then [] else [ASK_PLAIN];
    var input := AuthLineAt(a, 0);
    if input.Lost? && !inline then Outcome(s, before, None)
    else if !input.Decoded? then Outcome(s, before + [BAD_CREDENTIALS], None)
    else
      var parts := Split(input.text, "\0");
      if |parts| != 3 then Outcome(s, before + [BAD_CREDENTIALS], None)
      else Authenticate(s, before, parts[1], parts[2], a)
  }

  function AuthLogin(s: State, a: Answers): Outcome {
    var first, second := AuthLineAt(a, 0), AuthLineAt(a, 1);
    if first.Lost? then Outcome(s, [ASK_USERNAME], None)
    else if first.Garbled? then Outcome(s, [ASK_USERNAME, BAD_CREDENTIALS], None)
    else if second.Lost? then Outcome(s, [ASK_USERNAME, ASK_PASSWORD], None)
    else if second.Garbled? then Outcome(s, [ASK_USERNAME, ASK_PASSWORD, BAD_CREDENTIALS], None)
    else Authenticate(s, [ASK_USERNAME, ASK_PASSWORD], first.text, second.text, a)
  }

  function Auth(c: Config, s: State, cmd: Command, a: Answers): Outcome {
    if !c.hasAuthenticator then Answer(s, 502, "AUTH not supported.")
    else if s.peer.heloName == "" then Answer(s, 502, "Please introduce yourself first.")
    else if !s.tls then Answer(s, 502, "Cannot AUTH in plain text mode. Use STARTTLS.")
    else if |cmd.fields| < 2 then Outcome(s.(crashed := true), [], None) // cmd.fields[1] panics
    else if ToUpper(cmd.fields[1]) == "PLAIN" then AuthPlain(s, |cmd.fields| >= 3, a)
    else if ToUpper(cmd.fields[1]) == "LOGIN" then AuthLogin(s, a)
    else Answer(s, 502, "Unknown authentication mechanism")
  }

  // What the items of an XCLIENT command change.
  datatype Override = Override(heloName: string, username: string, protocol: Protocol)

  function PortValue(value: string): Option<nat> {
    if value == "" then None
    else if !('0' <= value[|value| - 1] <= '9') then None
    else
      var digit := value[|value| - 1] as int - '0' as int;
      if |value| == 1 then Some(digit)
      else
        match PortValue(value[..|value| - 1])
        case None => None
        case Some(front) => if 10 * front + digit < 0x1_0000 then Some(10 * front + digit) else None
  }

  function OverrideItem(o: Override, item: string): Option<Override> {
    var parts := Split(item, "=");
    if |parts| != 2 then None
    else if parts[0] == "NAME" || parts[0] == "ADDR" then Some(o)
    else if parts[0] == "HELO" then Some(o.(heloName := parts[1]))
    else if parts[0] == "PORT" then (if PortValue(parts[1]).Some? then Some(o) else None)
    else if parts[0] == "LOGIN" then Some(o.(username := parts[1]))
    else if parts[0] == "PROTO" then
      Some(if parts[1] == "SMTP" then o.(protocol := SMTP)
           else if parts[1] == "ESMTP" then o.(protocol := ESMTP) else o)
    else None
  }

  function OverrideAll(o: Override, items: seq<string>): Option<Override>
    decreases |items|
  {
    if items == [] then Some(o)
    else
      match OverrideItem(o, items[0])
      case None => None
      case Some(o') => OverrideAll(o', items[1..])
  }

  function Overridden(p: Peer, o: Override): Peer {
    p.(heloName := if o.heloName != "" then o.heloName else p.heloName,
       username := if o.username != "" then o.username else p.username,
       protocol := if o.protocol != NoProtocol then o.protocol else p.protocol)
  }

  // session.welcome
  function Welcome(c: Config, s: State, a: Answers): Outcome {
    if a.connection.Some? then Refuse(s, a.connection.value).(state := s.(closed := true))
    else Answer(s, 220, c.welcomeMessage)
  }

  function Xclient(c: Config, s: State, cmd: Command, a: Answers): Outcome {
    if !c.enableXclient then Answer(s, 550, "XCLIENT not enabled")
    else
      match OverrideAll(Override("", "", NoProtocol), if cmd.fields == [] then [] else cmd.fields[1..])
      case None => Answer(s, 502, "Couldn't decode the command.")
      case Some(o) =>
        if !c.tcp then Answer(s, 502, "Unsupported network connection")
        else Welcome(c, s.(peer := Overridden(s.peer, o)), a)
  }

  function Dispatch(c: Config, s: State, cmd: Command, a: Answers): Outcome {
    if cmd.action == "HELO" then Helo(c, s, cmd, a)
    else if cmd.action == "EHLO" then Ehlo(c, s, cmd, a)
    else if cmd.action == "MAIL" then Mail(c, s, cmd, a)
    else if cmd.action == "RCPT" then Rcpt(c, s, cmd, a)
    else if cmd.action == "STARTTLS" then StartTls(c, s, a)
    else if cmd.action == "DATA" then Data(c, s, a)
    else if cmd.action == "RSET" then Answer(Reset(s), 250, "Go ahead")
    else if cmd.action == "NOOP" then Answer(s, 250, "Go ahead")
    else if cmd.action == "QUIT" then Answer(s.(closed := true), 221, "OK, bye")
    else if cmd.action == "AUTH" then Auth(c, s, cmd, a)
    else if cmd.action == "XCLIENT" then Xclient(c, s, cmd, a)
    else Answer(s, 502, "Unsupported command.")
  }

  function Handle(c: Config, s: State, line: string, a: Answers): Outcome {
    Dispatch(c, s, ParseLine(line), a)
  }

  // What serve reads: a line, or a line longer than the scanner's buffer.
  datatype Event = Line(line: string, answers: Answers) | TooLong

  function React(c: Config, s: State, event: Event): Outcome {
    match event
    case Line(line, a) => Handle(c, s, line, a)
    case TooLong => Answer(Reset(s), 500, "Line too long")
  }

  function NewState(c: Config): State {
    State(Peer("", "", "", NoProtocol, c.hostname, false), None, false, false, false)
  }

  // ----- Runs -----------------------------------------------------------------

  // One event with what the session answered and handed to the Handler.
  datatype Entry = Entry(event: Event, replies: seq<Reply>, delivery: Option<Delivery>)

  function Play(c: Config, s: State, events: seq<Event>): (r: (State, seq<Entry>))
    ensures |r.1| == |events|
    decreases |events|
  {
    if events == [] then (s, [])
    else
      var o := React(c, s, events[0]);
      var (t, rest) := Play(c, o.state, events[1..]);
      (t, [Entry(events[0], o.replies, o.delivery)] + rest)
  }

  lemma {:induction false} PlayAppend(c: Config, s: State, events: seq<Event>, last: Event)
    ensures var (t, tr) := Play(c, s, events); var o := React(c, t, last);
            Play(c, s, events + [last]) == (o.state, tr + [Entry(last, o.replies, o.delivery)])
    decreases |events|
  {
    if events == [] {
      var o := React(c, s, last);
      assert events + [last] == [last] && [last][1..] == [];
      assert Play(c, o.state, []) == (o.state, []);
      assert [Entry(last, o.replies, o.delivery)] + [] == [] + [Entry(last, o.replies, o.delivery)];
    } else {
      assert (events + [last])[1..] == events[1..] + [last];
      var o := React(c, s, events[0]);
      PlayAppend(c, o.state, events[1..], last);
      var (t, rest) := Play(c, o.state, events[1..]);
      var e := Entry(events[0], o.replies, o.delivery);
      var x := Entry(last, React(c, t, last).replies, React(c, t, last).delivery);
      assert [e] + (rest + [x]) == ([e] + rest) + [x];
    }
  }

  // The Handler calls of a transcript, in order.
  function Delivered(tr: seq<Entry>): seq<Delivery> {
    if tr == [] then []
    else
      var last := tr[|tr| - 1];
      Delivered(tr[..|tr| - 1]) + if last.delivery.Some? then [last.delivery.value] else []
  }

  // The replies of a transcript, in order.
  function Replied(tr: seq<Entry>): seq<Reply> {
    if tr == [] then [] else Replied(tr[..|tr| - 1]) + tr[|tr| - 1].replies
  }

  // ----- The session object ---------------------------------------------------

  class SmtpSession {
    const server: Config
    var peer: Peer
    var envelope: Option<Envelope>
    var tls: bool
    var closed: bool
    var crashed: bool
    ghost var deliveries: seq<Delivery> // all Handler calls so far

    ghost function View(): State
      reads this
    {
      State(peer, envelope, tls, closed, crashed)
    }

    constructor (server: Config)
      ensures this.server == server && View() == NewState(server) && deliveries == []
    {
      this.server := server;
      peer := Peer("", "", "", NoProtocol, server.hostname, false);
      envelope, tls, closed, crashed := None, false, false, false;
      deliveries := [];
    }

    // The new state, the replies and the Handler calls are those of the outcome.
    twostate predicate Did(o: Outcome, replies: seq<Reply>)
      reads this
    {
      && View() == o.state
      && replies == o.replies
      && deliveries == old(deliveries) + if o.delivery.Some? then [o.delivery.value] else []
    }

    method ResetEnvelope()
      modifies this
      ensures View() == Reset(old(View())) && deliveries == old(deliveries)
    {
      envelope := None;
    }

    method Error(e: Failure) returns (replies: seq<Reply>)
      ensures replies == Refuse(View(), e).replies
    {
      if e.Coded? {
        return [Reply(e.code, [e.message])];
      }
      return [Reply(502, [e.message])];
    }

    method HandleHelo(cmd: Command, a: Answers) returns (replies: seq<Reply>)
      modifies this
      ensures Did(Helo(server, old(View()), cmd, a), replies)
    {
      if |cmd.fields| < 2 {
        return [Reply(502, ["Missing parameter"])];
      }
      if peer.heloName != "" {
        ResetEnvelope();
      }
      if a.helo.Some? {
        replies := Error(a.helo.value);
        return;
      }
      peer := peer.(heloName := cmd.fields[1]);
      peer := peer.(protocol := SMTP);
      return [Reply(250, ["Go ahead"])];
    }

    method HandleEhlo(cmd: Command, a: Answers) returns (replies: seq<Reply>)
      modifies this
      ensures Did(Ehlo(server, old(View()), cmd, a), replies)
    {
      if |cmd.fields| < 2 {
        return [Reply(502, ["Missing parameter"])];
      }
      if peer.heloName != "" {
        ResetEnvelope();
      }
      if a.helo.Some? {
        replies := Error(a.helo.value);
        return;
      }
      peer := peer.(heloName := cmd.fields[1]);
      peer := peer.(protocol := ESMTP);
      var extensions := ListExtensions();
      return [Reply(250, [server.hostname] + extensions)];
    }

    method ListExtensions() returns (extensions: seq<string>)
      ensures extensions == Extensions(server, View())
    {
      extensions := ["SIZE " + Decimal(server.maxMessageSize), "8BITMIME", "PIPELINING"];
      if server.enableXclient {
        extensions := extensions + ["XCLIENT"];
      }
      if server.hasTls && !tls {
        extensions := extensions + ["STARTTLS"];
      }
      if server.hasAuthenticator && tls {
        extensions := extensions + ["AUTH PLAIN LOGIN"];
      }
    }

    method HandleMail(cmd: Command, a: Answers) returns (replies: seq<Reply>)
      modifies this
      ensures Did(Mail(server, old(View()), cmd, a), replies)
    {
      if peer.heloName == "" {
        return [Reply(502, ["Please introduce yourself first."])];
      }
      if !tls && server.forceTls {
        return [Reply(502, ["Please turn on TLS by issuing a STARTTLS command."])];
      }
      if envelope.Some? {
        return [Reply(502, ["Duplicate MAIL"])];
      }
      var addr := AddressOf(cmd);
      if addr.None? {
        return [Reply(502, ["Ill-formatted e-mail address"])];
      }
      if a.sender.Some? {
        replies := Error(a.sender.value);
        return;
      }
      envelope := Some(Envelope(addr.value, [], ""));
      return [Reply(250, ["Go ahead"])];
    }

    method HandleRcpt(cmd: Command, a: Answers) returns (replies: seq<Reply>)
      modifies this
      ensures Did(Rcpt(server, old(View()), cmd, a), replies)
    {
      if envelope.None? {
        return [Reply(502, ["Missing MAIL FROM command."])];
      }
      if |envelope.value.recipients| >= server.maxRecipients {
        return [Reply(452, ["Too many recipients"])];
      }
      var addr := AddressOf(cmd);
      if addr.None? {
        return [Reply(502, ["Ill-formatted e-mail address"])];
      }
      if a.recipient.Some? {
        replies := Error(a.recipient.value);
        return;
      }
      envelope := Some(envelope.value.(recipients := envelope.value.recipients + [addr.value]));
      return [Reply(250, ["Go ahead"])];
    }

    method HandleStartTls(a: Answers) returns (replies: seq<Reply>)
      modifies this
      ensures Did(StartTls(server, old(View()), a), replies)
    {
      if tls {
        return [Reply(502, ["Already running in TLS"])];
      }
      if !server.hasTls {
        return [Reply(502, ["TLS not supported"])];
      }
      replies := [Reply(220, ["Go ahead"])];
      if !a.handshake {
        replies := replies + [Reply(550, ["Handshake error"])];
        return;
      }
      ResetEnvelope();
      tls := true;
      peer := peer.(tls := true);
    }

    method Deliver(a: Answers) returns (err: Option<Failure>)
      requires envelope.Some?
      modifies `deliveries
      ensures err == if server.hasHandler then a.handler else None
      ensures deliveries == old(deliveries)
                            + if server.hasHandler then [Delivery(peer, envelope.value, a.handler)] else []
    {
      if !server.hasHandler {
        return None;
      }
      deliveries := deliveries + [Delivery(peer, envelope.value, a.handler)];
      return a.handler;
    }

    method HandleData(a: Answers) returns (replies: seq<Reply>)
      modifies this
      ensures Did(Data(server, old(View()), a), replies)
    {
      if envelope.None? || |envelope.value.recipients| == 0 {
        return [Reply(502, ["Missing RCPT TO command."])];
      }
      replies := [GO_DATA];
      if a.data.Broken? {
        return;
      }
      if |a.data.text| < server.maxMessageSize {
        envelope := Some(envelope.value.(data := a.data.text));
        var err := Deliver(a);
        if err.Some? {
          var refusal := Error(err.value);
          replies := replies + refusal;
        } else {
          replies := replies + [Reply(250, ["Thank you."])];
        }
        ResetEnvelope();
        return;
      }
      replies := replies
                 + [Reply(552, ["Message exceeded max message size of " + Decimal(server.maxMessageSize) + " bytes"])];
      ResetEnvelope();
    }

    method HandleAuth(cmd: Command, a: Answers) returns (replies: seq<Reply>)
      modifies this
      ensures Did(Auth(server, old(View()), cmd, a), replies)
    {
      replies := [];
      if !server.hasAuthenticator {
        return [Reply(502, ["AUTH not supported."])];
      }
      if peer.heloName == "" {
        return [Reply(502, ["Please introduce yourself first."])];
      }
      if !tls {
        return [Reply(502, ["Cannot AUTH in plain text mode. Use STARTTLS."])];
      }
      if |cmd.fields| < 2 {
        crashed := true;
        return;
      }
      var mechanism := ToUpper(cmd.fields[1]);
      var username, password := "", "";
      if mechanism == "PLAIN" {
        var input := AuthLineAt(a, 0);
        if |cmd.fields| < 3 {
          replies := [ASK_PLAIN];
          if input.Lost? {
            return;
          }
        }
        if !input.Decoded? {
          return replies + [BAD_CREDENTIALS];
        }
        var parts := Split(input.text, "\0");
        if |parts| != 3 {
          return replies + [BAD_CREDENTIALS];
        }
        username, password := parts[1], parts[2];
      } else if mechanism == "LOGIN" {
        replies := [ASK_USERNAME];
        var first := AuthLineAt(a, 0);
        if first.Lost? {
          return;
        }
        if first.Garbled? {
          return replies + [BAD_CREDENTIALS];
        }
        replies := replies + [ASK_PASSWORD];
        var second := AuthLineAt(a, 1);
        if second.Lost? {
          return;
        }
        if second.Garbled? {
          return replies + [BAD_CREDENTIALS];
        }
        username, password := first.text, second.text;
      } else {
        return [Reply(502, ["Unknown authentication mechanism"])];
      }
      if a.authenticator.Some? {
        var refusal := Error(a.authenticator.value);
        replies := replies + refusal;
        return;
      }
      peer := peer.(username := username);
      peer := peer.(password := password);
      replies := replies + [Reply(235, ["OK, you are now authenticated"])];
    }

    method SendWelcome(a: Answers) returns (replies: seq<Reply>)
      modifies this
      ensures Did(Welcome(server, old(View()), a), replies)
    {
      if a.connection.Some? {
        replies := Error(a.connection.value);
        closed := true;
        return;
      }
      return [Reply(220, [server.welcomeMessage])];
    }

    // The item loop of XCLIENT.
    method ReadOverrides(items: seq<string>) returns (r: Option<Override>)
      ensures r == OverrideAll(Override("", "", NoProtocol), items)
    {
      hide OverrideItem;
      var o := Override("", "", NoProtocol);
      for i := 0 to |items|
        invariant OverrideAll(Override("", "", NoProtocol), items) == OverrideAll(o, items[i..])
      {
        assert items[i..][1..] == items[i + 1..];
        var next := OverrideItem(o, items[i]);
        if next.None? {
          return None;
        }
        o := next.value;
      }
      return Some(o);
    }

    method HandleXclient(cmd: Command, a: Answers) returns (replies: seq<Reply>)
      modifies this
      ensures Did(Xclient(server, old(View()), cmd, a), replies)
    {
      if !server.enableXclient {
        return [Reply(550, ["XCLIENT not enabled"])];
      }
      hide OverrideAll, OverrideItem;
      var read := ReadOverrides(if cmd.fields == [] then [] else cmd.fields[1..]);
      if read.None? {
        return [Reply(502, ["Couldn't decode the command."])];
      }
      var o := read.value;
      if !server.tcp {
        return [Reply(502, ["Unsupported network connection"])];
      }
      if o.heloName != "" {
        peer := peer.(heloName := o.heloName);
      }
      if o.username != "" {
        peer := peer.(username := o.username);
      }
      if o.protocol != NoProtocol {
        peer := peer.(protocol := o.protocol);
      }
      replies := SendWelcome(a);
    }

    // handle: dispatch on the command.
    method HandleLine(line: string, a: Answers) returns (replies: seq<Reply>)
      modifies this
      ensures Did(Handle(server, old(View()), line, a), replies)
    {
      var cmd := ParseLine(line);
      match cmd.action {
        case "HELO" => replies := HandleHelo(cmd, a);
        case "EHLO" => replies := HandleEhlo(cmd, a);
        case "MAIL" => replies := HandleMail(cmd, a);
        case "RCPT" => replies := HandleRcpt(cmd, a);
        case "STARTTLS" => replies := HandleStartTls(a);
        case "DATA" => replies := HandleData(a);
        case "RSET" =>
          ResetEnvelope();
          replies := [Reply(250, ["Go ahead"])];
        case "NOOP" => replies := [Reply(250, ["Go ahead"])];
        case "QUIT" =>
          replies := [Reply(221, ["OK, bye"])];
          closed := true;
        case "AUTH" => replies := HandleAuth(cmd, a);
        case "XCLIENT" => replies := HandleXclient(cmd, a);
        case _ => replies := [Reply(502, ["Unsupported command."])];
      }
    }

    // serve on a line longer than the scanner's buffer.
    method HandleTooLong() returns (replies: seq<Reply>)
      modifies this
      ensures Did(React(server, old(View()), TooLong), replies)
    {
      replies := [Reply(500, ["Line too long"])];
      ResetEnvelope();
    }

    // serve: the welcome, then one event after the other until the connection is
    // closed or the program has panicked.
    method Serve(events: seq<Event>, connection: Answers) returns (sent: seq<Reply>, ghost transcript: seq<Entry>)
      modifies this
      ensures var o := Welcome(server, old(View()), connection);
              && sent == o.replies + Replied(transcript) && |transcript| <= |events|
              && Play(server, o.state, events[..|transcript|]) == (View(), transcript)
      ensures |transcript| < |events| ==> closed || crashed
      ensures deliveries == old(deliveries) + Delivered(transcript)
    {
      hide React, Play;
      sent := SendWelcome(connection);
      ghost var start, greeting := View(), sent;
      transcript := [];
      PlayNothing(server, start);
      assert events[..0] == [];
      var i := 0;
      while i < |events| && !closed && !crashed
        invariant i == |transcript| <= |events|
        invariant Play(server, start, events[..i]) == (View(), transcript)
        invariant deliveries == old(deliveries) + Delivered(transcript) && sent == greeting + Replied(transcript)
      {
        PlayAppend(server, start, events[..i], events[i]);
        assert events[..i + 1] == events[..i] + [events[i]];
        ghost var o := React(server, View(), events[i]);
        ghost var entry := Entry(events[i], o.replies, o.delivery);
        var replies := Respond(events[i]);
        sent := sent + replies;
        assert (transcript + [entry])[..i] == transcript;
        transcript := transcript + [entry];
        i := i + 1;
      }
    }

    // One round of serve.
    method Respond(event: Event) returns (replies: seq<Reply>)
      modifies this
      ensures Did(React(server, old(View()), event), replies)
    {
      match event {
        case Line(line, a) => replies := HandleLine(line, a);
        case TooLong => replies := HandleTooLong();
      }
    }
  }

  lemma PlayNothing(c: Config, s: State)
    ensures Play(c, s, []) == (s, [])
  {
  }

  // ----- The server object ----------------------------------------------------

  class Server {
    var config: Config

    constructor (config: Config)
      ensures this.config == config
    {
      this.config := config;
    }

    // configureDefaults; on an error the limits have been set already.
    method ConfigureDefaults() returns (err: Option<string>)
      modifies this
      ensures Configured(old(config)).Ok? ==> err == None && config == Configured(old(config)).value
      ensures Configured(old(config)).Err? ==>
                && err == Some(Configured(old(config)).error)
                && config == WithLimits(old(config))
    {
      hide DEFAULT_HOSTNAME, NO_TLS, DefaultWelcome;
      ghost var c := config;
      if config.maxMessageSize == 0 {
        config := config.(maxMessageSize := 10240000);
      }
      if config.maxRecipients == 0 {
        config := config.(maxRecipients := 100);
      }
      assert config == WithLimits(c);
      if config.forceTls && !config.hasTls {
        return Some(NO_TLS);
      }
      ghost var limited := config;
      hide WithLimits;
      if config.hostname == "" {
        config := config.(hostname := DEFAULT_HOSTNAME);
      }
      if config.welcomeMessage == "" {
        config := config.(welcomeMessage := DefaultWelcome(config.hostname));
      }
      assert config == WithNames(limited);
      hide WithNames;
      return None;
    }
  }
}
