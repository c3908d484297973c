// Taking messages in: message.go, smtpHandler of smtplistener.go, and the message
// loop of tcpHandler in tcplistener.go.
module Intake {
  import opened Wrappers
  import opened Text
  import Dns
  import Pipeline
  import Session
  import SmtpClient

  datatype EmailAddress = EmailAddress(raw: string, address: string, alias: string, domain: string)

  // Why a message cannot be parsed: net/mail refuses, ParseDomain refuses, or
  // ParseDomain indexes past its parts.
  datatype Fault = Refused | Illegal | Panics

  // net/mail's ParseAddress: address and display name.
  type MailParser = string -> Option<(string, string)>

  // A message as handed in: data names its bytes; messageId is the header field
  // net/mail reads from them ("" if there is none), None if it cannot read them.
  datatype Email = Email(
    sender: string, recipients: seq<string>, data: nat, messageId: Option<string>, freshId: string)

  datatype Msg = Msg(sender: EmailAddress, rcpt: seq<EmailAddress>, messageId: string)

  datatype Config = Config(maxRecipients: int, relayMode: bool, relayServer: string)

  // What PushMail gets.
  datatype Parcel = Parcel(letter: Pipeline.Letter, mailServer: string)

  // ----- Addresses ------------------------------------------------------------

  function ParseDomain(addr: string): Result<string, Fault> {
    var parts := Split(addr, "@");
    if |parts| > 2 then Err(Illegal)
    else if |parts| < 2 then Err(Panics)
    else Ok(parts[1])
  }

  // ParseDomain reads exactly the addresses with one @.
  lemma ParseDomainIff(addr: string, domain: string)
    ensures ParseDomain(addr) == Ok(domain)
            <==> exists local :: addr == local + "@" + domain && !Contains(local, "@") && !Contains(domain, "@")
  {
    if ParseDomain(addr) == Ok(domain) {
      var parts := Split(addr, "@");
      JoinSplit(addr, "@");
      SplitPiecesFree(addr, "@");
      assert parts == [parts[0], domain] && parts[1..] == [domain];
      assert addr == parts[0] + "@" + domain;
    }
    if local :| addr == local + "@" + domain && !Contains(local, "@") && !Contains(domain, "@") {
      CutAppended(local, "@", domain);
      assert Split(domain, "@") == [domain];
      assert Split(addr, "@") == [local] + [domain];
    }
  }

  function ParseAddress(parser: MailParser, raw: string): Result<EmailAddress, Fault> {
    match parser(raw)
    case None => Err(Refused)
    case Some((address, alias)) =>
      match ParseDomain(address)
      case Err(e) => Err(e)
      case Ok(domain) => Ok(EmailAddress(raw, address, alias, domain))
  }

  function ParseAll(parser: MailParser, raws: seq<string>): (r: Result<seq<EmailAddress>, Fault>)
    ensures r.Ok? ==> |r.value| == |raws| && forall i :: 0 <= i < |raws| ==> r.value[i].raw == raws[i]
  {
    if raws == [] then Ok([])
    else
      match ParseAll(parser, raws[..|raws| - 1])
      case Err(e) => Err(e)
      case Ok(front) =>
        match ParseAddress(parser, raws[|raws| - 1])
        case Err(e) => Err(e)
        case Ok(last) => Ok(front + [last])
  }

  function Parsed(parser: MailParser, email: Email): Result<Msg, Fault> {
    match ParseAddress(parser, email.sender)
    case Err(e) => Err(e)
    case Ok(sender) =>
      match ParseAll(parser, email.recipients)
      case Err(e) => Err(e)
      case Ok(rcpt) =>
        match email.messageId
        case None => Err(Refused)
        case Some(id) => Ok(Msg(sender, rcpt, if id == "" then email.freshId else id))
  }

  // RcptDomains: how often each spelling of a domain occurs.
  function CountOf(rcpt: seq<EmailAddress>, domain: string): nat {
    if rcpt == [] then 0
    else CountOf(rcpt[..|rcpt| - 1], domain) + if rcpt[|rcpt| - 1].domain == domain then 1 else 0
  }

  ghost predicate Counts(counts: map<string, nat>, rcpt: seq<EmailAddress>) {
    forall d :: (d in counts <==> CountOf(rcpt, d) > 0) && (d in counts ==> counts[d] == CountOf(rcpt, d))
  }

  lemma {:induction false} CountedIffUsed(rcpt: seq<EmailAddress>, domain: string)
    ensures CountOf(rcpt, domain) > 0 <==> exists i :: 0 <= i < |rcpt| && rcpt[i].domain == domain
  {
    if rcpt != [] {
      var front := rcpt[..|rcpt| - 1];
      CountedIffUsed(front, domain);
      assert forall i :: 0 <= i < |front| ==> front[i] == rcpt[i];
    }
  }

  method ParseMessage(parser: MailParser, email: Email) returns (r: Result<Msg, Fault>, counts: map<string, nat>)
    ensures r == Parsed(parser, email)
    ensures r.Ok? ==> Counts(counts, r.value.rcpt)
  {
    hide Counts, ParseAddress;
    counts := map[];
    var sender := ParseAddress(parser, email.sender);
    if sender.Err? {
      return Err(sender.error), counts;
    }
    var rcpt: seq<EmailAddress> := [];
    for i := 0 to |email.recipients|
      invariant ParseAll(parser, email.recipients[..i]) == Ok(rcpt)
    {
      var prefix := email.recipients[..i + 1];
      assert prefix[..|prefix| - 1] == email.recipients[..i];
      var addr := ParseAddress(parser, email.recipients[i]);
      if addr.Err? {
        ErrorStays(parser, email.recipients, i + 1);
        return Err(addr.error), counts;
      }
      rcpt := rcpt + [addr.value];
    }
    assert email.recipients[..|email.recipients|] == email.recipients;
    if email.messageId.None? {
      return Err(Refused), counts;
    }
    var id := email.messageId.value;
    if id == "" {
      id := email.freshId;
    }
    counts := CountDomains(rcpt);
    return Ok(Msg(sender.value, rcpt, id)), counts;
  }

  // The counting loop of ParseMessage.
  method CountDomains(rcpt: seq<EmailAddress>) returns (counts: map<string, nat>)
    ensures Counts(counts, rcpt)
  {
    counts := map[];
    for i := 0 to |rcpt|
      invariant Counts(counts, rcpt[..i])
    {
      var d := rcpt[i].domain;
      assert rcpt[..i + 1][..i] == rcpt[..i];
      counts := counts[d := (if d in counts then counts[d] else 0) + 1];
    }
    assert rcpt[..|rcpt|] == rcpt;
  }

  // The first address that cannot be parsed decides.
  lemma {:induction false} ErrorStays(parser: MailParser, raws: seq<string>, i: nat)
    requires i <= |raws| && ParseAll(parser, raws[..i]).Err?
    ensures ParseAll(parser, raws) == ParseAll(parser, raws[..i])
    decreases |raws|
  {
    if i == |raws| {
      assert raws[..i] == raws;
    } else {
      var front := raws[..|raws| - 1];
      assert front[..i] == raws[..i];
      ErrorStays(parser, front, i);
    }
  }

  // ----- Groups ---------------------------------------------------------------

  // strings.EqualFold
  predicate EqualFold(a: string, b: string) {
    ToLower(a) == ToLower(b)
  }

  // GetDomainRecipientList
  function Group(rcpt: seq<EmailAddress>, domain: string): seq<string> {
    if rcpt == [] then []
    else
      Group(rcpt[..|rcpt| - 1], domain)
      + if EqualFold(domain, rcpt[|rcpt| - 1].domain) then [rcpt[|rcpt| - 1].raw] else []
  }

  method GetDomainRecipientList(rcpt: seq<EmailAddress>, domain: string) returns (recipients: seq<string>)
    ensures recipients == Group(rcpt, domain)
  {
    hide ToLower;
    recipients := [];
    for i := 0 to |rcpt|
      invariant recipients == Group(rcpt[..i], domain)
    {
      assert rcpt[..i + 1][..i] == rcpt[..i];
      if EqualFold(domain, rcpt[i].domain) {
        recipients := recipients + [rcpt[i].raw];
      }
    }
    assert rcpt[..|rcpt|] == rcpt;
  }

  // One order in which a loop over the map may visit the spellings.
  ghost predicate IsOrder(order: seq<string>, rcpt: seq<EmailAddress>) {
    && (forall i, j :: 0 <= i < j < |order| ==> order[i] != order[j])
    && (forall d :: d in order <==> exists i :: 0 <= i < |rcpt| && rcpt[i].domain == d)
  }

  // How many of the visited spellings name this domain.
  function Copies(order: seq<string>, domain: string): nat {
    if order == [] then 0
    else (if EqualFold(order[0], domain) then 1 else 0) + Copies(order[1..], domain)
  }

  function AllGroups(rcpt: seq<EmailAddress>, order: seq<string>): seq<string> {
    if order == [] then [] else Group(rcpt, order[0]) + AllGroups(rcpt, order[1..])
  }

  // What one raw address gets: its occurrences, each as often as its domain is visited.
  function Weight(rcpt: seq<EmailAddress>, order: seq<string>, raw: string): nat {
    if rcpt == [] then 0
    else
      var last := rcpt[|rcpt| - 1];
      Weight(rcpt[..|rcpt| - 1], order, raw) + if last.raw == raw then Copies(order, last.domain) else 0
  }

  function RawCount(rcpt: seq<EmailAddress>, raw: string): nat {
    if rcpt == [] then 0
    else RawCount(rcpt[..|rcpt| - 1], raw) + if rcpt[|rcpt| - 1].raw == raw then 1 else 0
  }

  lemma {:induction false} WeightStep(rcpt: seq<EmailAddress>, order: seq<string>, raw: string)
    requires order != []
    ensures Weight(rcpt, order, raw) == multiset(Group(rcpt, order[0]))[raw] + Weight(rcpt, order[1..], raw)
    decreases |rcpt|
  {
    if rcpt != [] {
      WeightStep(rcpt[..|rcpt| - 1], order, raw);
    }
  }

  lemma {:induction false} WeightOfNothing(rcpt: seq<EmailAddress>, raw: string)
    ensures Weight(rcpt, [], raw) == 0
  {
    if rcpt != [] {
      WeightOfNothing(rcpt[..|rcpt| - 1], raw);
    }
  }

  // Every recipient is queued once for every spelling of its domain.
  lemma {:induction false} GroupsWeigh(rcpt: seq<EmailAddress>, order: seq<string>, raw: string)
    ensures multiset(AllGroups(rcpt, order))[raw] == Weight(rcpt, order, raw)
    decreases |order|
  {
    if order == [] {
      WeightOfNothing(rcpt, raw);
    } else {
      WeightStep(rcpt, order, raw);
      GroupsWeigh(rcpt, order[1..], raw);
    }
  }

  // No two recipients' domains differ only in letter case.
  ghost predicate OneSpelling(rcpt: seq<EmailAddress>) {
    forall i, j :: 0 <= i < |rcpt| && 0 <= j < |rcpt| && EqualFold(rcpt[i].domain, rcpt[j].domain) ==>
      rcpt[i].domain == rcpt[j].domain
  }

  lemma {:induction false} CopiesAtMost(order: seq<string>, domain: string)
    requires forall i, j :: 0 <= i < j < |order| ==> order[i] != order[j]
    requires forall i :: 0 <= i < |order| && EqualFold(order[i], domain) ==> order[i] == domain
    ensures Copies(order, domain) == if domain in order then 1 else 0
  {
    hide EqualFold, ToLower;
    if order != [] {
      CopiesAtMost(order[1..], domain);
      Reflexive(domain);
      assert domain in order <==> domain == order[0] || domain in order[1..];
      assert domain == order[0] ==> domain !in order[1..];
    }
  }

  lemma Reflexive(domain: string)
    ensures EqualFold(domain, domain)
  {
  }

  lemma {:induction false} CopiesCount(order: seq<string>, domain: string, i: nat)
    requires i < |order| && EqualFold(order[i], domain)
    ensures Copies(order, domain) >= 1
    ensures forall j :: i < j < |order| && EqualFold(order[j], domain) ==> Copies(order, domain) >= 2
    decreases |order|
  {
    hide EqualFold, ToLower;
    if i > 0 {
      CopiesCount(order[1..], domain, i - 1);
    } else {
      forall j | i < j < |order| && EqualFold(order[j], domain)
        ensures Copies(order, domain) >= 2
      {
        CopiesCount(order[1..], domain, j - 1);
      }
    }
  }

  lemma {:induction false} WeightIsCount(rcpt: seq<EmailAddress>, order: seq<string>, raw: string)
    requires forall i :: 0 <= i < |rcpt| ==> Copies(order, rcpt[i].domain) == 1
    ensures Weight(rcpt, order, raw) == RawCount(rcpt, raw)
    decreases |rcpt|
  {
    if rcpt != [] {
      WeightIsCount(rcpt[..|rcpt| - 1], order, raw);
    }
  }

  lemma {:induction false} WeightExceeds(rcpt: seq<EmailAddress>, order: seq<string>, i: nat)
    requires forall k :: 0 <= k < |rcpt| ==> Copies(order, rcpt[k].domain) >= 1
    requires i < |rcpt| && Copies(order, rcpt[i].domain) >= 2
    ensures Weight(rcpt, order, rcpt[i].raw) > RawCount(rcpt, rcpt[i].raw)
    decreases |rcpt|
  {
    var front, last := rcpt[..|rcpt| - 1], rcpt[|rcpt| - 1];
    if i < |front| {
      WeightExceeds(front, order, i);
    } else {
      WeightAtLeast(front, order, rcpt[i].raw);
    }
  }

  lemma {:induction false} WeightAtLeast(rcpt: seq<EmailAddress>, order: seq<string>, raw: string)
    requires forall k :: 0 <= k < |rcpt| ==> Copies(order, rcpt[k].domain) >= 1
    ensures Weight(rcpt, order, raw) >= RawCount(rcpt, raw)
    decreases |rcpt|
  {
    if rcpt != [] {
      WeightAtLeast(rcpt[..|rcpt| - 1], order, raw);
    }
  }

  // The groups together hold every recipient exactly once, exactly when no two
  // domains differ only in letter case.
  lemma GroupsPartitionIff(rcpt: seq<EmailAddress>, order: seq<string>)
    requires IsOrder(order, rcpt)
    ensures (forall raw :: multiset(AllGroups(rcpt, order))[raw] == RawCount(rcpt, raw)) <==> OneSpelling(rcpt)
  {
    hide EqualFold, ToLower, Weight, RawCount, AllGroups, Copies;
    forall raw ensures multiset(AllGroups(rcpt, order))[raw] == Weight(rcpt, order, raw) {
      GroupsWeigh(rcpt, order, raw);
    }
    forall i | 0 <= i < |rcpt| ensures Copies(order, rcpt[i].domain) >= 1 {
      VisitedOnce(rcpt, order, i);
    }
    if OneSpelling(rcpt) {
      forall i | 0 <= i < |rcpt| ensures Copies(order, rcpt[i].domain) == 1 {
        forall k | 0 <= k < |order| && EqualFold(order[k], rcpt[i].domain)
          ensures order[k] == rcpt[i].domain
        {
          assert order[k] in order;
        }
        CopiesAtMost(order, rcpt[i].domain);
      }
      forall raw ensures multiset(AllGroups(rcpt, order))[raw] == RawCount(rcpt, raw) {
        WeightIsCount(rcpt, order, raw);
      }
    } else {
      var i, j :| 0 <= i < |rcpt| && 0 <= j < |rcpt| && EqualFold(rcpt[i].domain, rcpt[j].domain)
                  && rcpt[i].domain != rcpt[j].domain;
      TwoSpellings(rcpt, order, i, j);
      WeightExceeds(rcpt, order, j);
    }
  }

  lemma VisitedOnce(rcpt: seq<EmailAddress>, order: seq<string>, i: nat)
    requires IsOrder(order, rcpt) && i < |rcpt|
    ensures Copies(order, rcpt[i].domain) >= 1
  {
    hide EqualFold, ToLower, Copies;
    assert rcpt[i].domain in order;
    var k :| 0 <= k < |order| && order[k] == rcpt[i].domain;
    Reflexive(order[k]);
    CopiesCount(order, rcpt[i].domain, k);
  }

  lemma TwoSpellings(rcpt: seq<EmailAddress>, order: seq<string>, i: nat, j: nat)
    requires IsOrder(order, rcpt) && i < |rcpt| && j < |rcpt|
    requires EqualFold(rcpt[i].domain, rcpt[j].domain) && rcpt[i].domain != rcpt[j].domain
    ensures Copies(order, rcpt[j].domain) >= 2
  {
    hide ToLower, Copies;
    assert rcpt[i].domain in order && rcpt[j].domain in order;
    var k :| 0 <= k < |order| && order[k] == rcpt[i].domain;
    var l :| 0 <= l < |order| && order[l] == rcpt[j].domain;
    CopiesCount(order, rcpt[j].domain, if k < l then k else l);
  }

  // ----- smtpHandler ----------------------------------------------------------

  const MESSAGE_ERROR := Session.Coded(450, "Requested mail action not taken")
  const TOO_MANY_RECIPIENTS := Session.Coded(452, "Too many recipients")
  const DOMAIN_NOT_FOUND := Session.Coded(554, "Domain not found")

  // MX answers by domain, in lower case.
  type Resolver = string -> Dns.MxAnswer

  function ServerFor(resolver: Resolver, domain: string): Result<string, Dns.DnsError> {
    Dns.MailServerFor(ToLower(domain), 0, resolver(ToLower(domain)))
  }

  function ParcelFor(c: Config, msg: Msg, email: Email, domain: string, server: string): Parcel {
    Parcel(Pipeline.Letter(email.sender, Group(msg.rcpt, domain), msg.sender.domain, domain, msg.messageId, email.data),
           if c.relayMode then c.relayServer else server)
  }

  // The entries for the spellings in their order, or the first failed lookup.
  function Parcels(c: Config, resolver: Resolver, msg: Msg, email: Email, order: seq<string>): Option<seq<Parcel>> {
    if order == [] then Some([])
    else
      var last := order[|order| - 1];
      match Parcels(c, resolver, msg, email, order[..|order| - 1])
      case None => None
      case Some(front) =>
        match ServerFor(resolver, last)
        case Err(_) => None
        case Ok(server) => Some(front + [ParcelFor(c, msg, email, last, server)])
  }

  predicate BadCount(c: Config, email: Email) {
    |email.recipients| > c.maxRecipients || |email.recipients| == 0
  }

  // The Handler of the SMTP server behind its panic guard: its error and what it
  // has pushed to the mail queue.
  function Handled(c: Config, parser: MailParser, resolver: Resolver, email: Email, order: seq<string>)
    : (Option<Session.Failure>, seq<Parcel>)
  {
    match Parsed(parser, email)
    case Err(_) => (Some(MESSAGE_ERROR), [])
    case Ok(msg) =>
      if BadCount(c, email) then (Some(TOO_MANY_RECIPIENTS), [])
      else
        match Parcels(c, resolver, msg, email, order)
        case None => (Some(DOMAIN_NOT_FOUND), [])
        case Some(parcels) => (None, parcels)
  }

  // The spellings still to visit, and the order so far.
  ghost predicate Visiting(order: seq<string>, remaining: set<string>, keys: set<string>) {
    && (forall i, j :: 0 <= i < j < |order| ==> order[i] != order[j])
    && (forall d :: d in order <==> d in keys && d !in remaining)
    && remaining <= keys
  }

  lemma VisitNone(keys: set<string>)
    ensures Visiting([], keys, keys)
  {
  }

  lemma VisitNext(order: seq<string>, remaining: set<string>, keys: set<string>, domain: string)
    requires Visiting(order, remaining, keys) && domain in remaining
    ensures Visiting(order + [domain], remaining - {domain}, keys)
  {
  }

  lemma AllVisited(order: seq<string>, counts: map<string, nat>, rcpt: seq<EmailAddress>)
    requires Visiting(order, {}, counts.Keys) && Counts(counts, rcpt)
    ensures IsOrder(order, rcpt)
  {
    forall d
      ensures d in order <==> exists i :: 0 <= i < |rcpt| && rcpt[i].domain == d
    {
      CountedIffUsed(rcpt, d);
      assert d in counts <==> d in counts.Keys;
    }
  }

  lemma NextParcel(c: Config, resolver: Resolver, msg: Msg, email: Email, order: seq<string>, domain: string,
                   entries: seq<Parcel>)
    requires Parcels(c, resolver, msg, email, order) == Some(entries)
    ensures Parcels(c, resolver, msg, email, order + [domain])
            == if ServerFor(resolver, domain).Err? then None
               else Some(entries + [ParcelFor(c, msg, email, domain, ServerFor(resolver, domain).value)])
  {
    hide ServerFor, ParcelFor;
    assert (order + [domain])[..|order|] == order;
  }

  lemma NoParcels(c: Config, resolver: Resolver, msg: Msg, email: Email)
    ensures Parcels(c, resolver, msg, email, []) == Some([]) && Reachable(c, resolver, msg, email, []) == []
  {
  }

  lemma NextReachable(c: Config, resolver: Resolver, msg: Msg, email: Email, order: seq<string>, domain: string)
    ensures Reachable(c, resolver, msg, email, order + [domain])
            == Reachable(c, resolver, msg, email, order)
               + if ServerFor(resolver, domain).Err? then []
                 else [ParcelFor(c, msg, email, domain, ServerFor(resolver, domain).value)]
  {
    hide ServerFor, ParcelFor;
    assert (order + [domain])[..|order|] == order;
  }

  lemma ErrorsDiffer()
    ensures MESSAGE_ERROR != TOO_MANY_RECIPIENTS && MESSAGE_ERROR != DOMAIN_NOT_FOUND
    ensures TOO_MANY_RECIPIENTS != DOMAIN_NOT_FOUND
  {
  }

  method SmtpHandler(c: Config, parser: MailParser, resolver: Resolver, email: Email)
    returns (err: Option<Session.Failure>, pushed: seq<Parcel>, ghost order: seq<string>)
    ensures (err, pushed) == Handled(c, parser, resolver, email, order)
    ensures err == Some(MESSAGE_ERROR) <==> Parsed(parser, email).Err?
    ensures err == Some(TOO_MANY_RECIPIENTS) <==> Parsed(parser, email).Ok? && BadCount(c, email)
    ensures err.Some? ==> pushed == []
    ensures err == None ==> IsOrder(order, Parsed(parser, email).value.rcpt)
  {
    hide Parsed, ServerFor, ToLower, ParcelFor, Counts, IsOrder, MESSAGE_ERROR, TOO_MANY_RECIPIENTS, DOMAIN_NOT_FOUND;
    hide Parcels, Visiting;
    ErrorsDiffer();
    order, pushed := [], [];
    var msg, counts := ParseMessage(parser, email);
    if msg.Err? {
      return Some(MESSAGE_ERROR), [], order;
    }
    if |email.recipients| > c.maxRecipients || |email.recipients| == 0 {
      return Some(TOO_MANY_RECIPIENTS), [], order;
    }
    var entries: seq<Parcel> := [];
    var remaining := counts.Keys;
    VisitNone(counts.Keys);
    NoParcels(c, resolver, msg.value, email);
    while remaining != {}
      invariant Visiting(order, remaining, counts.Keys)
      invariant Parcels(c, resolver, msg.value, email, order) == Some(entries)
      decreases |remaining|
    {
      var domain :| domain in remaining;
      VisitNext(order, remaining, counts.Keys, domain);
      remaining := remaining - {domain};
      NextParcel(c, resolver, msg.value, email, order, domain, entries);
      order := order + [domain];
      var server := ServerFor(resolver, domain);
      if server.Err? {
        return Some(DOMAIN_NOT_FOUND), [], order;
      }
      entries := entries + [ParcelFor(c, msg.value, email, domain, server.value)];
    }
    AllVisited(order, counts, msg.value.rcpt);
    for i := 0 to |entries|
      invariant pushed == entries[..i]
    {
      pushed := pushed + [entries[i]];
      assert entries[..i + 1] == entries[..i] + [entries[i]];
    }
    assert entries[..|entries|] == entries;
    return None, pushed, order;
  }

  // ----- All or nothing -------------------------------------------------------

  lemma {:induction false} ParcelsAt(c: Config, resolver: Resolver, msg: Msg, email: Email, order: seq<string>)
    requires Parcels(c, resolver, msg, email, order).Some?
    ensures var parcels := Parcels(c, resolver, msg, email, order).value;
            && |parcels| == |order|
            && forall i :: 0 <= i < |order| ==>
                 ServerFor(resolver, order[i]).Ok?
                 && parcels[i] == ParcelFor(c, msg, email, order[i], ServerFor(resolver, order[i]).value)
  {
    hide ServerFor, ParcelFor;
    if order != [] {
      ParcelsAt(c, resolver, msg, email, order[..|order| - 1]);
    }
  }

  lemma {:induction false} InOwnGroup(rcpt: seq<EmailAddress>, i: nat)
    requires i < |rcpt|
    ensures rcpt[i].raw in Group(rcpt, rcpt[i].domain)
    decreases |rcpt|
  {
    if i < |rcpt| - 1 {
      InOwnGroup(rcpt[..|rcpt| - 1], i);
    }
  }

  // smtpHandler pushes one entry per spelling and thereby every recipient, or it
  // reports an error and pushes nothing.
  lemma AllOrNothing(c: Config, parser: MailParser, resolver: Resolver, email: Email, order: seq<string>)
    ensures var (err, pushed) := Handled(c, parser, resolver, email, order);
            && (err.Some? ==> pushed == [])
            && (err == None && IsOrder(order, Parsed(parser, email).value.rcpt) ==>
                  && |pushed| == |order|
                  && forall i :: 0 <= i < |email.recipients| ==>
                       exists k :: 0 <= k < |pushed| && email.recipients[i] in pushed[k].letter.recipients)
  {
    hide Group, ServerFor, Counts;
    var (err, pushed) := Handled(c, parser, resolver, email, order);
    if err == None && IsOrder(order, Parsed(parser, email).value.rcpt) {
      var msg := Parsed(parser, email).value;
      ParcelsAt(c, resolver, msg, email, order);
      forall i | 0 <= i < |email.recipients|
        ensures exists k :: 0 <= k < |pushed| && email.recipients[i] in pushed[k].letter.recipients
      {
        InOwnGroup(msg.rcpt, i);
        assert msg.rcpt[i].domain in order;
        var k :| 0 <= k < |order| && order[k] == msg.rcpt[i].domain;
        assert pushed[k].letter.recipients == Group(msg.rcpt, order[k]);
      }
    }
  }

  // All recipients of the pushed entries, in order.
  function Queued(parcels: seq<Parcel>): seq<string> {
    if parcels == [] then [] else parcels[0].letter.recipients + Queued(parcels[1..])
  }

  lemma {:induction false} QueuedGroups(parcels: seq<Parcel>, rcpt: seq<EmailAddress>, order: seq<string>)
    requires |parcels| == |order|
    requires forall i :: 0 <= i < |order| ==> parcels[i].letter.recipients == Group(rcpt, order[i])
    ensures Queued(parcels) == AllGroups(rcpt, order)
    decreases |order|
  {
    hide Group;
    if order != [] {
      QueuedGroups(parcels[1..], rcpt, order[1..]);
    }
  }

  // What smtpHandler pushes are the groups of the spellings.
  lemma PushedAreGroups(c: Config, parser: MailParser, resolver: Resolver, email: Email, order: seq<string>)
    requires Handled(c, parser, resolver, email, order).0 == None
    ensures Queued(Handled(c, parser, resolver, email, order).1)
         == AllGroups(Parsed(parser, email).value.rcpt, order)
  {
    hide Group, ServerFor;
    var msg := Parsed(parser, email).value;
    ParcelsAt(c, resolver, msg, email, order);
    QueuedGroups(Handled(c, parser, resolver, email, order).1, msg.rcpt, order);
  }

  lemma {:induction false} RawCounts(rcpt: seq<EmailAddress>, raws: seq<string>, raw: string)
    requires |rcpt| == |raws| && forall i :: 0 <= i < |raws| ==> rcpt[i].raw == raws[i]
    ensures RawCount(rcpt, raw) == multiset(raws)[raw]
    decreases |raws|
  {
    if raws != [] {
      var i := |raws| - 1;
      RawCounts(rcpt[..i], raws[..i], raw);
      assert raws == raws[..i] + [raws[i]];
    }
  }

  // The pushed entries together hold every recipient exactly once, exactly when
  // no two domains differ only in letter case.
  lemma PushedPartitionIff(c: Config, parser: MailParser, resolver: Resolver, email: Email, order: seq<string>)
    requires Handled(c, parser, resolver, email, order).0 == None
    requires IsOrder(order, Parsed(parser, email).value.rcpt)
    ensures multiset(Queued(Handled(c, parser, resolver, email, order).1)) == multiset(email.recipients)
            <==> OneSpelling(Parsed(parser, email).value.rcpt)
  {
    var rcpt := Parsed(parser, email).value.rcpt;
    PushedAreGroups(c, parser, resolver, email, order);
    hide Handled, AllGroups, OneSpelling, IsOrder, RawCount, ParseAddress;
    GroupsPartitionIff(rcpt, order);
    forall raw
      ensures RawCount(rcpt, raw) == multiset(email.recipients)[raw]
    {
      RawCounts(rcpt, email.recipients, raw);
    }
    assert multiset(AllGroups(rcpt, order)) == multiset(email.recipients) <==>
           forall raw :: multiset(AllGroups(rcpt, order))[raw] == multiset(email.recipients)[raw];
  }

  // No error of the handler reads as a success, so a message the client saw
  // accepted is in the mail queue for every recipient.
  lemma AcceptedMeansQueued(c: Config, parser: MailParser, resolver: Resolver, email: Email, order: seq<string>)
    requires SmtpClient.Accepts(Handled(c, parser, resolver, email, order).0)
    ensures Handled(c, parser, resolver, email, order).0 == None
    ensures IsOrder(order, Parsed(parser, email).value.rcpt) ==>
              forall i :: 0 <= i < |email.recipients| ==>
                exists k :: 0 <= k < |Handled(c, parser, resolver, email, order).1|
                            && email.recipients[i] in Handled(c, parser, resolver, email, order).1[k].letter.recipients
  {
    AllOrNothing(c, parser, resolver, email, order);
  }

  // ----- tcpHandler -----------------------------------------------------------

  // Entries of the spellings that have a server.
  function Reachable(c: Config, resolver: Resolver, msg: Msg, email: Email, order: seq<string>): seq<Parcel> {
    if order == [] then []
    else
      var last := order[|order| - 1];
      Reachable(c, resolver, msg, email, order[..|order| - 1])
      + match ServerFor(resolver, last)
        case Err(_) => []
        case Ok(server) => [ParcelFor(c, msg, email, last, server)]
  }

  // A message's entries; a message that cannot be parsed, or has too many
  // recipients or none, is dropped.
  function Accepted(c: Config, parser: MailParser, resolver: Resolver, email: Email, order: seq<string>): seq<Parcel> {
    match Parsed(parser, email)
    case Err(_) => []
    case Ok(msg) => if BadCount(c, email) then [] else Reachable(c, resolver, msg, email, order)
  }

  // All messages of a packet, until one panics: tcpHandler has no guard.
  function PacketParcels(c: Config, parser: MailParser, resolver: Resolver, emails: seq<Email>,
                         orders: seq<seq<string>>)
    : seq<Parcel>
    requires |orders| == |emails|
  {
    if emails == [] then []
    else
      var i := |emails| - 1;
      PacketParcels(c, parser, resolver, emails[..i], orders[..i])
      + Accepted(c, parser, resolver, emails[i], orders[i])
  }

  method TcpMessages(c: Config, parser: MailParser, resolver: Resolver, emails: seq<Email>)
    returns (pushed: seq<Parcel>, crashed: bool, ghost orders: seq<seq<string>>)
    ensures |orders| <= |emails| && (!crashed ==> |orders| == |emails|)
    ensures pushed == PacketParcels(c, parser, resolver, emails[..|orders|], orders)
    ensures forall i :: 0 <= i < |orders| && Parsed(parser, emails[i]).Ok? && !BadCount(c, emails[i]) ==>
              IsOrder(orders[i], Parsed(parser, emails[i]).value.rcpt)
    ensures crashed <==> exists i :: 0 <= i < |emails| && Parsed(parser, emails[i]) == Err(Panics)
  {
    hide Parsed, Reachable, IsOrder;
    pushed, crashed, orders := [], false, [];
    for i := 0 to |emails|
      invariant |orders| == i
      invariant pushed == PacketParcels(c, parser, resolver, emails[..i], orders)
      invariant forall k :: 0 <= k < i && Parsed(parser, emails[k]).Ok? && !BadCount(c, emails[k]) ==>
                  IsOrder(orders[k], Parsed(parser, emails[k]).value.rcpt)
      invariant forall k :: 0 <= k < i ==> Parsed(parser, emails[k]) != Err(Panics)
    {
      assert emails[..i + 1][..i] == emails[..i];
      var msg, counts := ParseMessage(parser, emails[i]);
      ghost var order := [];
      if msg == Err(Panics) {
        crashed := true;
        return;
      }
      if msg.Ok? && !(|emails[i].recipients| > c.maxRecipients || |emails[i].recipients| == 0) {
        var entries;
        entries, order := DomainEntries(c, resolver, msg.value, counts, emails[i]);
        pushed := pushed + entries;
      }
      assert (orders + [order])[..i] == orders;
      orders := orders + [order];
    }
    assert emails[..|emails|] == emails;
  }

  // The loop over the domains of one message.
  method DomainEntries(c: Config, resolver: Resolver, msg: Msg, counts: map<string, nat>, email: Email)
    returns (entries: seq<Parcel>, ghost order: seq<string>)
    requires Counts(counts, msg.rcpt)
    ensures IsOrder(order, msg.rcpt) && entries == Reachable(c, resolver, msg, email, order)
  {
    hide ServerFor, ParcelFor, Counts, IsOrder, Reachable, Visiting;
    entries, order := [], [];
    var remaining := counts.Keys;
    VisitNone(counts.Keys);
    NoParcels(c, resolver, msg, email);
    while remaining != {}
      invariant Visiting(order, remaining, counts.Keys)
      invariant entries == Reachable(c, resolver, msg, email, order)
      decreases |remaining|
    {
      var domain :| domain in remaining;
      VisitNext(order, remaining, counts.Keys, domain);
      remaining := remaining - {domain};
      NextReachable(c, resolver, msg, email, order, domain);
      order := order + [domain];
      var server := ServerFor(resolver, domain);
      if server.Ok? {
        entries := entries + [ParcelFor(c, msg, email, domain, server.value)];
      }
    }
    AllVisited(order, counts, msg.rcpt);
  }

  lemma {:induction false} ReachableHas(
    c: Config, resolver: Resolver, msg: Msg, email: Email, order: seq<string>, parcel: Parcel)
    ensures parcel in Reachable(c, resolver, msg, email, order) <==>
              exists i :: 0 <= i < |order| && ServerFor(resolver, order[i]).Ok?
                          && parcel == ParcelFor(c, msg, email, order[i], ServerFor(resolver, order[i]).value)
    decreases |order|
  {
    hide ServerFor, ParcelFor;
    if order != [] {
      ReachableHas(c, resolver, msg, email, order[..|order| - 1], parcel);
    }
  }

  lemma {:induction false} ParsedFrom(parser: MailParser, raws: seq<string>)
    requires ParseAll(parser, raws).Ok?
    ensures forall i :: 0 <= i < |raws| ==> ParseAddress(parser, raws[i]) == Ok(ParseAll(parser, raws).value[i])
    decreases |raws|
  {
    hide ParseAddress;
    if raws != [] {
      ParsedFrom(parser, raws[..|raws| - 1]);
    }
  }

  // Over TCP a recipient is queued exactly if the lookup of its domain succeeds:
  // other domains are dropped one by one.
  lemma TcpQueuesIff(c: Config, parser: MailParser, resolver: Resolver, email: Email, order: seq<string>, i: nat)
    requires Parsed(parser, email).Ok? && !BadCount(c, email) && i < |email.recipients|
    requires IsOrder(order, Parsed(parser, email).value.rcpt)
    ensures (exists p :: p in Accepted(c, parser, resolver, email, order)
                         && email.recipients[i] in p.letter.recipients)
            <==> ServerFor(resolver, Parsed(parser, email).value.rcpt[i].domain).Ok?
  {
    hide ServerFor, Group, ToLower, Reachable, ParseAddress;
    var msg := Parsed(parser, email).value;
    var d := msg.rcpt[i].domain;
    var raw := email.recipients[i];
    ParsedFrom(parser, email.recipients);
    if ServerFor(resolver, d).Ok? {
      assert d in order;
      var p := ParcelFor(c, msg, email, d, ServerFor(resolver, d).value);
      ReachableHas(c, resolver, msg, email, order, p);
      InOwnGroup(msg.rcpt, i);
    }
    if p :| p in Reachable(c, resolver, msg, email, order) && raw in p.letter.recipients {
      ReachableHas(c, resolver, msg, email, order, p);
      var k :| 0 <= k < |order| && ServerFor(resolver, order[k]).Ok?
               && p == ParcelFor(c, msg, email, order[k], ServerFor(resolver, order[k]).value);
      var j := GroupHas(msg.rcpt, order[k], raw);
      assert email.recipients[j] == raw;
      FoldedServer(resolver, order[k], d);
    }
  }

  lemma {:induction false} GroupHas(rcpt: seq<EmailAddress>, domain: string, raw: string) returns (j: nat)
    requires raw in Group(rcpt, domain)
    ensures j < |rcpt| && rcpt[j].raw == raw && EqualFold(domain, rcpt[j].domain)
  {
    hide EqualFold;
    var last := rcpt[|rcpt| - 1];
    if EqualFold(domain, last.domain) && last.raw == raw {
      j := |rcpt| - 1;
    } else {
      j := GroupHas(rcpt[..|rcpt| - 1], domain, raw);
    }
  }

  // Spellings of one domain share their lookup.
  lemma FoldedServer(resolver: Resolver, a: string, d: string)
    requires EqualFold(a, d)
    ensures ServerFor(resolver, a) == ServerFor(resolver, d)
  {
  }
}
