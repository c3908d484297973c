// What the commands of a session mean to a client: letter case does not matter,
// which reply a command gets and what it leaves behind, and which credentials and
// names the session takes from what was sent.
module SessionLaws {
  import opened Wrappers
  import opened Text
  import opened Session
  import opened Addressing
  import Status

  // ----- Letter case ----------------------------------------------------------

  const VERBS: set<string> :=
    {"HELO", "EHLO", "MAIL", "RCPT", "STARTTLS", "DATA", "RSET", "NOOP", "QUIT", "AUTH", "XCLIENT"}

  lemma {:induction false} ToUpperAt(s: string)
    ensures |ToUpper(s)| == |s|
    ensures forall i :: 0 <= i < |s| ==> ToUpper(s)[i] == UpperChar(s[i])
  {
    if s != "" {
      ToUpperAt(s[1..]);
    }
  }

  // Texts that agree in lower case agree in upper case, and the other way round.
  lemma SameCaseIff(a: string, b: string)
    ensures ToLower(a) == ToLower(b) <==> ToUpper(a) == ToUpper(b)
  {
    ToLowerAt(a);
    ToLowerAt(b);
    ToUpperAt(a);
    ToUpperAt(b);
    assert forall c, d :: LowerChar(c) == LowerChar(d) <==> UpperChar(c) == UpperChar(d);
    if ToLower(a) == ToLower(b) {
      assert forall i :: 0 <= i < |a| ==> LowerChar(a[i]) == LowerChar(b[i]);
    }
    if ToUpper(a) == ToUpper(b) {
      assert forall i :: 0 <= i < |a| ==> UpperChar(a[i]) == UpperChar(b[i]);
    }
  }

  predicate Capitals(s: string) {
    s != "" && forall i :: 0 <= i < |s| ==> 'A' <= s[i] <= 'Z'
  }

  lemma ShortVerbs()
    ensures Capitals("HELO") && Capitals("EHLO") && Capitals("MAIL") && Capitals("RCPT") && Capitals("DATA")
  {
  }

  lemma MoreShortVerbs()
    ensures Capitals("RSET") && Capitals("NOOP") && Capitals("QUIT") && Capitals("AUTH")
  {
  }

  lemma LongVerbs()
    ensures Capitals("STARTTLS") && Capitals("XCLIENT")
  {
  }

  lemma VerbIsUpper(verb: string)
    requires verb in VERBS
    ensures ToUpper(verb) == verb && verb != "" && NoSpace(verb)
  {
    hide Capitals, ToUpper, NoSpace;
    ShortVerbs();
    MoreShortVerbs();
    LongVerbs();
    CapitalsStay(verb);
  }

  lemma CapitalsStay(s: string)
    requires Capitals(s)
    ensures ToUpper(s) == s && s != "" && NoSpace(s)
  {
    UpperAlready(s);
  }

  lemma LowerKeepsSpace(w: string, v: string)
    requires ToLower(w) == ToLower(v)
    ensures |w| == |v| && (NoSpace(w) <==> NoSpace(v))
  {
    ToLowerAt(w);
    ToLowerAt(v);
    assert forall i :: 0 <= i < |w| ==> LowerChar(w[i]) == LowerChar(v[i]);
    assert forall c :: LowerChar(c) in SPACE <==> c in SPACE;
  }

  // With WordsFirst of Addressing this says what the words of every line are.
  lemma BlanksSkipped(c: char, s: string)
    requires c in {' ', '\t', '\n', '\r', '\U{000B}', '\U{000C}'}
    ensures Words([c] + s) == Words(s) && Words("") == []
  {
    assert ([c] + s)[1..] == s;
  }

  // Every verb is recognised in every letter case, alone or before arguments.
  lemma VerbInAnyCase(w: string, rest: string, verb: string)
    requires verb in VERBS && ToLower(w) == ToLower(verb) && (rest == "" || rest[0] in SPACE)
    ensures ParseLine(w + rest).action == verb
    ensures ParseLine(w + rest).fields == [w] + Words(rest)
  {
    hide ToLower, ToUpper, Words;
    VerbIsUpper(verb);
    LowerKeepsSpace(w, verb);
    SameCaseIff(w, verb);
    WordsFirst(w, rest);
  }

  // Two lines that differ in the letter case of their first word only are handled
  // alike.
  lemma CaseDoesNotMatter(c: Config, s: State, w: string, v: string, rest: string, a: Answers)
    requires w != "" && NoSpace(w) && ToLower(w) == ToLower(v) && (rest == "" || rest[0] in SPACE)
    ensures Handle(c, s, w + rest, a) == Handle(c, s, v + rest, a)
  {
    hide ToLower, ToUpper, Words, Dispatch;
    LowerKeepsSpace(w, v);
    SameCaseIff(w, v);
    WordsFirst(w, rest);
    WordsFirst(v, rest);
    FirstWordUnread(c, s, ParseLine(w + rest), ParseLine(v + rest), a);
  }

  lemma FirstWordUnread(c: Config, s: State, x: Command, y: Command, a: Answers)
    requires x.action == y.action && x.params == y.params && x.fields != [] && y.fields != []
    requires x.fields[1..] == y.fields[1..]
    ensures Dispatch(c, s, x, a) == Dispatch(c, s, y, a)
  {
    hide ToUpper, AuthPlain, AuthLogin, OverrideAll, Welcome, Extensions;
    assert |x.fields| == |x.fields[1..]| + 1 && |y.fields| == |y.fields[1..]| + 1;
    assert forall i :: 1 <= i < |x.fields| ==> x.fields[i] == x.fields[1..][i - 1] == y.fields[i];
    assert Helo(c, s, x, a) == Helo(c, s, y, a) && Ehlo(c, s, x, a) == Ehlo(c, s, y, a);
    assert Mail(c, s, x, a) == Mail(c, s, y, a) && Rcpt(c, s, x, a) == Rcpt(c, s, y, a);
    assert Auth(c, s, x, a) == Auth(c, s, y, a) && Xclient(c, s, x, a) == Xclient(c, s, y, a);
  }

  // ----- Replies --------------------------------------------------------------

  function Codes(replies: seq<Reply>): (r: seq<int>)
    ensures |r| == |replies|
  {
    seq(|replies|, i requires 0 <= i < |replies| => replies[i].code)
  }

  function CodeOf(refusal: Failure): int {
    match refusal
    case Coded(code, _) => code
    case Plain(_) => 502
  }

  lemma RefusalAnswers(s: State, refusal: Failure)
    ensures Refuse(s, refusal).state == s && Codes(Refuse(s, refusal).replies) == [CodeOf(refusal)]
    ensures Refuse(s, refusal).delivery == None
  {
  }

  // Commands that always succeed, words that are no command, and lines that are
  // too long.
  lemma PlainCommands(c: Config, s: State, cmd: Command, a: Answers)
    ensures var o := Dispatch(c, s, cmd, a);
            && (cmd.action == "NOOP" ==> o.state == s && Codes(o.replies) == [250] && o.delivery == None)
            && (cmd.action == "RSET" ==>
                  o.state == s.(envelope := None) && Codes(o.replies) == [250] && o.delivery == None)
            && (cmd.action == "QUIT" ==>
                  o.state == s.(closed := true) && Codes(o.replies) == [221] && o.delivery == None)
            && (cmd.action !in VERBS ==> o.state == s && Codes(o.replies) == [502] && o.delivery == None)
    ensures var o := React(c, s, TooLong);
            o.state == s.(envelope := None) && Codes(o.replies) == [500] && o.delivery == None
  {
    hide Helo, Ehlo, Mail, Rcpt, StartTls, Data, Auth, Xclient;
  }

  // A greeting succeeds exactly with a name that the HeloChecker does not refuse.
  // It always ends a transaction when it repeats one.
  lemma GreetingIff(c: Config, s: State, cmd: Command, a: Answers, extended: bool)
    ensures var o := if extended then Ehlo(c, s, cmd, a) else Helo(c, s, cmd, a);
            var dropped := if s.peer.heloName != "" then s.(envelope := None) else s;
            && o.delivery == None
            && (|cmd.fields| < 2 ==> o.state == s && Codes(o.replies) == [502])
            && (|cmd.fields| >= 2 && a.helo.Some? ==>
                  o.state == dropped && Codes(o.replies) == [CodeOf(a.helo.value)])
            && (|cmd.fields| >= 2 && a.helo.None? ==>
                  && Codes(o.replies) == [250]
                  && o.state == dropped.(peer := s.peer.(heloName := cmd.fields[1],
                                                         protocol := if extended then ESMTP else SMTP)))
  {
    hide Extensions;
  }

  // What EHLO lists: the host name, the size limit in decimal, and the extensions
  // of the moment.
  lemma EhloLists(c: Config, s: State, cmd: Command, a: Answers)
    requires |cmd.fields| >= 2 && a.helo.None?
    ensures var o := Ehlo(c, s, cmd, a);
            && |o.replies| == 1 && o.replies[0].lines != [] && o.replies[0].lines[0] == c.hostname
            && forall x :: x in o.replies[0].lines[1..] <==>
                 || x in {"8BITMIME", "PIPELINING"} || x == "SIZE " + Decimal(c.maxMessageSize)
                 || (x == "XCLIENT" && c.enableXclient)
                 || (x == "STARTTLS" && c.hasTls && !s.tls)
                 || (x == "AUTH PLAIN LOGIN" && c.hasAuthenticator && s.tls)
  {
    hide Decimal;
    ListIs(c, s);
    ListIs(c, Ehlo(c, s, cmd, a).state);
    assert ([c.hostname] + Extensions(c, Ehlo(c, s, cmd, a).state))[1..] == Extensions(c, Ehlo(c, s, cmd, a).state);
  }

  lemma ListIs(c: Config, s: State)
    ensures forall x :: x in Extensions(c, s) <==>
              || x in {"8BITMIME", "PIPELINING"} || x == "SIZE " + Decimal(c.maxMessageSize)
              || (x == "XCLIENT" && c.enableXclient)
              || (x == "STARTTLS" && c.hasTls && !s.tls)
              || (x == "AUTH PLAIN LOGIN" && c.hasAuthenticator && s.tls)
  {
    hide Decimal;
  }

  lemma SizeIsDecimal(n: nat)
    ensures Status.DigitsValue(Decimal(n)) == Some(n)
  {
    Status.DigitsRead(n);
  }

  // MAIL opens a transaction exactly after a greeting, under TLS if that is forced,
  // with none open, for a readable address, unless the checker refuses.
  lemma MailIff(c: Config, s: State, cmd: Command, a: Answers)
    ensures var o := Mail(c, s, cmd, a);
            var mayOpen := s.peer.heloName != "" && (c.forceTls ==> s.tls)
                           && s.envelope == None && AddressOf(cmd).Some?;
            && o.delivery == None
            && (!mayOpen ==> o.state == s && Codes(o.replies) == [502])
            && (mayOpen && a.sender.Some? ==> o.state == s && Codes(o.replies) == [CodeOf(a.sender.value)])
            && (mayOpen && a.sender.None? ==>
                  && Codes(o.replies) == [250]
                  && o.state == s.(envelope := Some(Envelope(AddressOf(cmd).value, [], ""))))
  {
  }

  // RCPT adds a recipient exactly to an open transaction with room for it.
  lemma RcptIff(c: Config, s: State, cmd: Command, a: Answers)
    ensures var o := Rcpt(c, s, cmd, a);
            && o.delivery == None
            && (s.envelope.None? ==> o.state == s && Codes(o.replies) == [502])
            && (s.envelope.Some? ==>
                  var e := s.envelope.value;
                  if |e.recipients| >= c.maxRecipients then o.state == s && Codes(o.replies) == [452]
                  else if AddressOf(cmd).None? then o.state == s && Codes(o.replies) == [502]
                  else if a.recipient.Some? then o.state == s && Codes(o.replies) == [CodeOf(a.recipient.value)]
                  else
                    && Codes(o.replies) == [250]
                    && o.state == s.(envelope :=
                                     Some(Envelope(e.sender, e.recipients + [AddressOf(cmd).value], e.data))))
  {
  }

  // DATA is asked for exactly with a recipient. A text below the limit goes to the
  // Handler, which decides on the reply; a longer one is refused; both end the
  // transaction. A broken connection changes nothing.
  lemma DataIff(c: Config, s: State, a: Answers)
    ensures var o := Data(c, s, a);
            if s.envelope.None? || s.envelope.value.recipients == [] then
              o.state == s && Codes(o.replies) == [502] && o.delivery == None
            else if a.data.Broken? then o.state == s && Codes(o.replies) == [354] && o.delivery == None
            else if |a.data.text| >= c.maxMessageSize then
              o.state == s.(envelope := None) && Codes(o.replies) == [354, 552] && o.delivery == None
            else
              && o.state == s.(envelope := None)
              && Codes(o.replies) == [354, if c.hasHandler && a.handler.Some? then CodeOf(a.handler.value) else 250]
              && o.delivery == if c.hasHandler then
                                 Some(Delivery(s.peer, s.envelope.value.(data := a.data.text), a.handler))
                               else None
  {
    hide Decimal;
  }

  // STARTTLS succeeds exactly once, with a TLS configuration and a handshake.
  lemma StartTlsIff(c: Config, s: State, a: Answers)
    ensures var o := StartTls(c, s, a);
            && o.delivery == None
            && (s.tls || !c.hasTls ==> o.state == s && Codes(o.replies) == [502])
            && (!s.tls && c.hasTls && !a.handshake ==> o.state == s && Codes(o.replies) == [220, 550])
            && (!s.tls && c.hasTls && a.handshake ==>
                  && Codes(o.replies) == [220]
                  && o.state == s.(envelope := None, tls := true, peer := s.peer.(tls := true)))
  {
  }

  // ----- Credentials ----------------------------------------------------------

  // May this session authenticate, and by this mechanism?
  predicate Authenticates(c: Config, s: State, cmd: Command, mechanism: string) {
    && c.hasAuthenticator && s.peer.heloName != "" && s.tls
    && |cmd.fields| >= 2 && ToLower(cmd.fields[1]) == ToLower(mechanism)
  }

  // The Authenticator decides about exactly these credentials.
  ghost predicate Decided(o: Outcome, s: State, username: string, password: string, a: Answers) {
    && o.delivery == None && o.replies != []
    && o.replies[|o.replies| - 1].code == (if a.authenticator.None? then 235 else CodeOf(a.authenticator.value))
    && o.state == if a.authenticator.None? then s.(peer := s.peer.(username := username, password := password)) else s
  }

  predicate NoNul(s: string) {
    '\0' !in s
  }

  lemma NulFree(s: string)
    requires NoNul(s)
    ensures !Contains(s, "\0")
  {
    ContainsIffOccurs(s, "\0");
    forall i: nat | i < |s|
      ensures !OccursAt(s, "\0", i)
    {
      assert s[i..i + 1] == [s[i]];
    }
  }

  lemma ThreeParts(x: string, y: string, z: string)
    requires NoNul(x) && NoNul(y) && NoNul(z)
    ensures Split(x + "\0" + (y + "\0" + z), "\0") == [x, y, z]
  {
    NulFree(x);
    NulFree(y);
    NulFree(z);
    CutAppended(x, "\0", y + "\0" + z);
    CutAppended(y, "\0", z);
    assert Split(z, "\0") == [z];
    assert Split(y + "\0" + z, "\0") == [y] + [z];
  }

  // AUTH PLAIN: what the client packed into one text is what the server takes.
  lemma PlainCredentials(c: Config, s: State, cmd: Command, a: Answers,
                         identity: string, username: string, password: string)
    requires Authenticates(c, s, cmd, "PLAIN") && NoNul(identity) && NoNul(username) && NoNul(password)
    requires a.auth != [] && a.auth[0] == Decoded(identity + "\0" + (username + "\0" + password))
    ensures Decided(Auth(c, s, cmd, a), s, username, password, a)
    ensures Codes(Auth(c, s, cmd, a).replies)[..|Auth(c, s, cmd, a).replies| - 1]
            == if |cmd.fields| >= 3 then [] else [334]
  {
    hide Split, ToUpper, ToLower;
    MechanismIff(cmd.fields[1], "PLAIN");
    ThreeParts(identity, username, password);
    RefusalIs(s, a);
  }

  // AUTH LOGIN: two texts, asked for one after the other.
  lemma LoginCredentials(c: Config, s: State, cmd: Command, a: Answers, username: string, password: string)
    requires Authenticates(c, s, cmd, "LOGIN")
    requires |a.auth| >= 2 && a.auth[0] == Decoded(username) && a.auth[1] == Decoded(password)
    ensures Decided(Auth(c, s, cmd, a), s, username, password, a)
    ensures Codes(Auth(c, s, cmd, a).replies)[..|Auth(c, s, cmd, a).replies| - 1] == [334, 334]
  {
    hide Split, ToUpper, ToLower;
    MechanismIff(cmd.fields[1], "LOGIN");
    RefusalIs(s, a);
  }

  lemma RefusalIs(s: State, a: Answers)
    ensures a.authenticator.Some? ==>
              |Refuse(s, a.authenticator.value).replies| == 1
              && Refuse(s, a.authenticator.value).replies[0].code == CodeOf(a.authenticator.value)
  {
  }

  // All other ends of AUTH change nothing: refused for want of an Authenticator, a
  // greeting, TLS or a known mechanism; or the credentials are lost, do not decode,
  // or are not three texts in PLAIN.
  lemma AuthFails(c: Config, s: State, cmd: Command, a: Answers)
    requires |cmd.fields| >= 2
    ensures var o := Auth(c, s, cmd, a); var codes := Codes(o.replies); var inline := |cmd.fields| >= 3;
            if !Authenticates(c, s, cmd, "PLAIN") && !Authenticates(c, s, cmd, "LOGIN") then
              o.state == s && codes == [502] && o.delivery == None
            else if Authenticates(c, s, cmd, "PLAIN") then
              (a.auth == [] || !a.auth[0].Decoded? || |Split(a.auth[0].text, "\0")| != 3 ==>
                 && o.state == s && o.delivery == None
                 && codes == (if inline then [] else [334])
                             + if !inline && (a.auth == [] || a.auth[0].Lost?) then [] else [502])
            else
              && (a.auth == [] || a.auth[0].Lost? ==> o.state == s && codes == [334] && o.delivery == None)
              && (a.auth != [] && a.auth[0].Garbled? ==> o.state == s && codes == [334, 502] && o.delivery == None)
              && (a.auth != [] && a.auth[0].Decoded? && (|a.auth| == 1 || a.auth[1].Lost?) ==>
                    o.state == s && codes == [334, 334] && o.delivery == None)
              && (|a.auth| >= 2 && a.auth[0].Decoded? && a.auth[1].Garbled? ==>
                    o.state == s && codes == [334, 334, 502] && o.delivery == None)
  {
    hide Split, ToUpper, ToLower;
    MechanismIff(cmd.fields[1], "PLAIN");
    MechanismIff(cmd.fields[1], "LOGIN");
  }

  lemma MechanismIff(word: string, mechanism: string)
    requires mechanism in {"PLAIN", "LOGIN"}
    ensures ToUpper(word) == mechanism <==> ToLower(word) == ToLower(mechanism)
  {
    assert forall i :: 0 <= i < |mechanism| ==> 'A' <= mechanism[i] <= 'Z';
    UpperAlready(mechanism);
    SameCaseIff(word, mechanism);
  }

  // ----- XCLIENT --------------------------------------------------------------

  // A port is a decimal number of 16 bits.
  lemma {:induction false} PortIff(value: string, n: nat)
    ensures PortValue(value) == Some(n) <==> Status.DigitsValue(value) == Some(n) && n < 0x1_0000
  {
    if |value| > 1 && '0' <= value[|value| - 1] <= '9' {
      var front := value[..|value| - 1];
      forall m: nat
        ensures PortValue(front) == Some(m) <==> Status.DigitsValue(front) == Some(m) && m < 0x1_0000
      {
        PortIff(front, m);
      }
      var digit := value[|value| - 1] as int - '0' as int;
      assert forall m: nat :: 10 * m + digit < 0x1_0000 ==> m < 0x1_0000;
    }
  }

  predicate NoEquals(s: string) {
    '=' !in s
  }

  lemma ItemParts(name: string, value: string)
    requires NoEquals(name) && NoEquals(value)
    ensures Split(name + "=" + value, "=") == [name, value]
  {
    ContainsIffOccurs(name, "=");
    ContainsIffOccurs(value, "=");
    forall i: nat | i < |name| ensures !OccursAt(name, "=", i) { assert name[i..i + 1] == [name[i]]; }
    forall i: nat | i < |value| ensures !OccursAt(value, "=", i) { assert value[i..i + 1] == [value[i]]; }
    CutAppended(name, "=", value);
    assert Split(value, "=") == [value];
  }

  // What one item name=value asks for.
  lemma ItemMeans(o: Override, name: string, value: string)
    requires NoEquals(name) && NoEquals(value)
    ensures var r := OverrideItem(o, name + "=" + value);
            && (name == "HELO" ==> r == Some(o.(heloName := value)))
            && (name == "LOGIN" ==> r == Some(o.(username := value)))
            && (name == "PROTO" ==> r == Some(if value == "SMTP" then o.(protocol := SMTP)
                                               else if value == "ESMTP" then o.(protocol := ESMTP) else o))
            && (name in {"NAME", "ADDR"} ==> r == Some(o))
            && (name == "PORT" ==> r == if PortValue(value).Some? then Some(o) else None)
            && (name !in {"HELO", "LOGIN", "PROTO", "NAME", "ADDR", "PORT"} ==> r == None)
  {
    hide Split, PortValue;
    ItemParts(name, value);
  }

  // Items are taken one after the other; the first bad one fails the command.
  lemma {:induction false} ItemsInTurn(o: Override, items: seq<string>, item: string)
    ensures OverrideAll(o, items + [item])
            == if OverrideAll(o, items).None? then None else OverrideItem(OverrideAll(o, items).value, item)
    decreases |items|
  {
    hide OverrideItem;
    if items == [] {
      assert [] + [item] == [item] && [item][1..] == [];
    } else {
      assert (items + [item])[1..] == items[1..] + [item];
      if OverrideItem(o, items[0]).Some? {
        ItemsInTurn(OverrideItem(o, items[0]).value, items[1..], item);
      }
    }
  }

  // XCLIENT succeeds exactly if it is enabled, all items can be read and the peer
  // is on TCP; then the names given replace the peer's, and a new welcome follows.
  lemma XclientIff(c: Config, s: State, cmd: Command, a: Answers)
    requires cmd.fields != []
    ensures var o := Xclient(c, s, cmd, a); var asked := OverrideAll(Override("", "", NoProtocol), cmd.fields[1..]);
            && o.delivery == None
            && (!c.enableXclient ==> o.state == s && Codes(o.replies) == [550])
            && (c.enableXclient && (asked.None? || !c.tcp) ==> o.state == s && Codes(o.replies) == [502])
            && (c.enableXclient && asked.Some? && c.tcp ==>
                  && Codes(o.replies) == [if a.connection.None? then 220 else CodeOf(a.connection.value)]
                  && o.state.closed == (s.closed || a.connection.Some?)
                  && o.state == s.(peer := o.state.peer, closed := o.state.closed)
                  && var p := asked.value;
                     && o.state.peer.heloName == (if p.heloName != "" then p.heloName else s.peer.heloName)
                     && o.state.peer.username == (if p.username != "" then p.username else s.peer.username)
                     && o.state.peer.protocol == (if p.protocol != NoProtocol then p.protocol else s.peer.protocol)
                     && o.state.peer == s.peer.(heloName := o.state.peer.heloName, username := o.state.peer.username,
                                                protocol := o.state.peer.protocol))
  {
    hide OverrideAll;
  }
}
