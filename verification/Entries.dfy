// What the entries of a message carry, and which messages get entries, told in
// terms of the message alone.
module Entries {
  import opened Wrappers
  import opened Text
  import opened Intake
  import Dns
  import Session

  // net/mail reads an address with one at sign, and this domain behind it.
  ghost predicate InDomain(parser: MailParser, raw: string, domain: string) {
    exists local, alias :: parser(raw) == Some((AddressOf(local, domain), alias))
                           && !Contains(local, "@") && !Contains(domain, "@")
  }

  function AddressOf(local: string, domain: string): string {
    local + "@" + domain
  }

  lemma DomainIs(parser: MailParser, raw: string)
    ensures ParseAddress(parser, raw).Ok? ==> InDomain(parser, raw, ParseAddress(parser, raw).value.domain)
    ensures ParseAddress(parser, raw).Err? ==> forall domain :: !InDomain(parser, raw, domain)
    ensures ParseAddress(parser, raw).Ok? ==>
              var a := ParseAddress(parser, raw).value; a.raw == raw && parser(raw) == Some((a.address, a.alias))
    ensures forall d :: InDomain(parser, raw, d) ==>
              ParseAddress(parser, raw).Ok? && ParseAddress(parser, raw).value.domain == d
  {
    hide ParseDomain;
    if ParseAddress(parser, raw).Ok? {
      var address, alias := parser(raw).value.0, parser(raw).value.1;
      var domain := ParseAddress(parser, raw).value.domain;
      ParseDomainIff(address, domain);
      var local :| address == local + "@" + domain && !Contains(local, "@") && !Contains(domain, "@");
      assert parser(raw) == Some((AddressOf(local, domain), alias));
    }
    forall d | InDomain(parser, raw, d)
      ensures ParseAddress(parser, raw).Ok? && ParseAddress(parser, raw).value.domain == d
    {
      var local, alias :| parser(raw) == Some((AddressOf(local, d), alias))
                          && !Contains(local, "@") && !Contains(d, "@");
      ParseDomainIff(AddressOf(local, d), d);
    }
  }

  // An entry as it should be for one of the message's domains.
  ghost predicate Proper(c: Config, parser: MailParser, resolver: Resolver, email: Email, p: Parcel) {
    var domain := p.letter.recipientDomain;
    && p.letter.sender == email.sender && p.letter.data == email.data
    && InDomain(parser, email.sender, p.letter.senderDomain)
    && (email.messageId.Some? ==>
          p.letter.messageId == if email.messageId.value == "" then email.freshId else email.messageId.value)
    && (forall raw :: raw in p.letter.recipients <==>
          raw in email.recipients && exists d :: InDomain(parser, raw, d) && SameDomain(d, domain))
    && (exists raw :: raw in email.recipients && InDomain(parser, raw, domain))
    && (exists server ::
          && Dns.Resolves(ToLower(domain), 0, resolver(ToLower(domain)), server)
          && p.mailServer == if c.relayMode then c.relayServer else server)
  }

  // The same name up to letter case.
  predicate SameDomain(a: string, b: string) {
    |a| == |b| && forall i :: 0 <= i < |a| ==> LowerChar(a[i]) == LowerChar(b[i])
  }

  lemma FoldIsSameDomain(a: string, b: string)
    ensures EqualFold(a, b) <==> SameDomain(a, b)
  {
    ToLowerAt(a);
    ToLowerAt(b);
    if SameDomain(a, b) {
      assert ToLower(a) == ToLower(b);
    }
  }

  lemma {:induction false} GroupIff(rcpt: seq<EmailAddress>, domain: string, raw: string)
    ensures raw in Group(rcpt, domain) <==>
              exists i :: 0 <= i < |rcpt| && rcpt[i].raw == raw && EqualFold(domain, rcpt[i].domain)
  {
    hide EqualFold;
    if rcpt != [] {
      var front := rcpt[..|rcpt| - 1];
      GroupIff(front, domain, raw);
      assert forall i :: 0 <= i < |front| ==> front[i] == rcpt[i];
    }
  }

  // The recipients of an entry are those of its domain, however it is spelled.
  lemma GroupIsDomain(parser: MailParser, raws: seq<string>, domain: string, raw: string)
    requires ParseAll(parser, raws).Ok?
    ensures raw in Group(ParseAll(parser, raws).value, domain) <==>
              raw in raws && exists d :: InDomain(parser, raw, d) && SameDomain(d, domain)
  {
    hide Group, InDomain, ParseAddress, EqualFold, SameDomain;
    var rcpt := ParseAll(parser, raws).value;
    GroupIff(rcpt, domain, raw);
    ParsedFrom(parser, raws);
    DomainIs(parser, raw);
    if raw in Group(rcpt, domain) {
      var i :| 0 <= i < |rcpt| && rcpt[i].raw == raw && EqualFold(domain, rcpt[i].domain);
      assert raws[i] == raw;
      FoldIsSameDomain(domain, rcpt[i].domain);
      Symmetric(domain, rcpt[i].domain);
    }
    if raw in raws && exists d :: InDomain(parser, raw, d) && SameDomain(d, domain) {
      var i :| 0 <= i < |raws| && raws[i] == raw;
      var d :| InDomain(parser, raw, d) && SameDomain(d, domain);
      assert rcpt[i].domain == d;
      Symmetric(domain, d);
      FoldIsSameDomain(domain, d);
    }
  }

  lemma Symmetric(a: string, b: string)
    ensures SameDomain(a, b) <==> SameDomain(b, a)
  {
  }

  lemma ParcelIsProper(c: Config, parser: MailParser, resolver: Resolver, email: Email, domain: string)
    requires Parsed(parser, email).Ok? && ServerFor(resolver, domain).Ok?
    requires exists i :: 0 <= i < |email.recipients| && Parsed(parser, email).value.rcpt[i].domain == domain
    ensures Proper(c, parser, resolver, email,
                   ParcelFor(c, Parsed(parser, email).value, email, domain, ServerFor(resolver, domain).value))
  {
    hide ParseAddress, ToLower, Group, InDomain, SameDomain, ParseAll;
    var msg := Parsed(parser, email).value;
    var server := ServerFor(resolver, domain).value;
    DomainIs(parser, email.sender);
    forall raw
      ensures raw in Group(msg.rcpt, domain) <==>
                raw in email.recipients && exists d :: InDomain(parser, raw, d) && SameDomain(d, domain)
    {
      GroupIsDomain(parser, email.recipients, domain, raw);
    }
    Dns.LookupIff(ToLower(domain), 0, resolver(ToLower(domain)), server);
    var i :| 0 <= i < |email.recipients| && msg.rcpt[i].domain == domain;
    ParsedFrom(parser, email.recipients);
    DomainIs(parser, email.recipients[i]);
    assert email.recipients[i] in email.recipients && InDomain(parser, email.recipients[i], domain);
  }

  // Every entry that smtpHandler pushes is proper.
  lemma PushedAreProper(c: Config, parser: MailParser, resolver: Resolver, email: Email, order: seq<string>, k: nat)
    requires Parsed(parser, email).Ok? ==> IsOrder(order, Parsed(parser, email).value.rcpt)
    requires k < |Handled(c, parser, resolver, email, order).1|
    ensures Proper(c, parser, resolver, email, Handled(c, parser, resolver, email, order).1[k])
  {
    hide ServerFor, ParcelFor, Parcels, Parsed, Proper;
    var msg := Parsed(parser, email).value;
    ParcelsAt(c, resolver, msg, email, order);
    assert order[k] in order;
    SameLength(parser, email);
    ParcelIsProper(c, parser, resolver, email, order[k]);
  }

  lemma SameLength(parser: MailParser, email: Email)
    requires Parsed(parser, email).Ok?
    ensures |Parsed(parser, email).value.rcpt| == |email.recipients|
  {
  }

  // And every entry that the TCP listener pushes for a message.
  lemma TcpEntriesAreProper(c: Config, parser: MailParser, resolver: Resolver, email: Email, order: seq<string>,
                            p: Parcel)
    requires Parsed(parser, email).Ok? && IsOrder(order, Parsed(parser, email).value.rcpt)
    requires p in Accepted(c, parser, resolver, email, order)
    ensures Proper(c, parser, resolver, email, p)
  {
    hide ServerFor, ParcelFor, Reachable, Parsed, Proper;
    var msg := Parsed(parser, email).value;
    ReachableHas(c, resolver, msg, email, order, p);
    var k :| 0 <= k < |order| && ServerFor(resolver, order[k]).Ok?
             && p == ParcelFor(c, msg, email, order[k], ServerFor(resolver, order[k]).value);
    assert order[k] in order;
    SameLength(parser, email);
    ParcelIsProper(c, parser, resolver, email, order[k]);
  }

  // The count kept for a spelling is how often it occurs.
  lemma {:induction false} CountIsMultiplicity(rcpt: seq<EmailAddress>, domains: seq<string>, d: string)
    requires |domains| == |rcpt| && forall i :: 0 <= i < |rcpt| ==> domains[i] == rcpt[i].domain
    ensures multiset(domains)[d] == CountOf(rcpt, d)
  {
    if rcpt != [] {
      var n := |rcpt| - 1;
      CountIsMultiplicity(rcpt[..n], domains[..n], d);
      assert domains == domains[..n] + [domains[n]];
    }
  }

  // ----- Which messages are accepted ------------------------------------------

  ghost predicate HasDomain(parser: MailParser, raw: string) {
    exists d :: InDomain(parser, raw, d)
  }

  ghost predicate Readable(parser: MailParser, email: Email) {
    && email.messageId.Some? && HasDomain(parser, email.sender)
    && forall i :: 0 <= i < |email.recipients| ==> HasDomain(parser, email.recipients[i])
  }

  // The domain of every recipient has a server.
  ghost predicate Deliverable(parser: MailParser, resolver: Resolver, email: Email) {
    forall i, d :: 0 <= i < |email.recipients| && InDomain(parser, email.recipients[i], d) ==> HasServer(resolver, d)
  }

  ghost predicate HasServer(resolver: Resolver, domain: string) {
    exists server :: Dns.Resolves(ToLower(domain), 0, resolver(ToLower(domain)), server)
  }

  lemma HasServerIff(resolver: Resolver, domain: string)
    ensures HasServer(resolver, domain) <==> ServerFor(resolver, domain).Ok?
  {
    hide ToLower;
    var d := ToLower(domain);
    if ServerFor(resolver, domain).Ok? {
      Dns.LookupIff(d, 0, resolver(d), ServerFor(resolver, domain).value);
    }
    if HasServer(resolver, domain) {
      var server :| Dns.Resolves(d, 0, resolver(d), server);
      Dns.LookupIff(d, 0, resolver(d), server);
    }
  }

  lemma {:induction false} AllReadIff(parser: MailParser, raws: seq<string>)
    ensures ParseAll(parser, raws).Ok? <==> forall i :: 0 <= i < |raws| ==> ParseAddress(parser, raws[i]).Ok?
  {
    hide ParseAddress;
    if raws != [] {
      var front := raws[..|raws| - 1];
      AllReadIff(parser, front);
      assert forall i :: 0 <= i < |front| ==> front[i] == raws[i];
    }
  }

  lemma ReadableIff(parser: MailParser, email: Email)
    ensures Readable(parser, email) <==> Parsed(parser, email).Ok?
  {
    hide ParseAddress, HasDomain, ParseAll;
    HasDomainIff(parser, email.sender);
    AllReadIff(parser, email.recipients);
    forall i | 0 <= i < |email.recipients|
      ensures ParseAddress(parser, email.recipients[i]).Ok? <==> HasDomain(parser, email.recipients[i])
    {
      HasDomainIff(parser, email.recipients[i]);
    }
  }

  lemma HasDomainIff(parser: MailParser, raw: string)
    ensures ParseAddress(parser, raw).Ok? <==> HasDomain(parser, raw)
  {
    hide ParseAddress, InDomain;
    DomainIs(parser, raw);
  }

  lemma {:induction false} ParcelsIff(c: Config, resolver: Resolver, msg: Msg, email: Email, order: seq<string>)
    ensures Parcels(c, resolver, msg, email, order).Some? <==>
              forall k :: 0 <= k < |order| ==> ServerFor(resolver, order[k]).Ok?
  {
    hide ServerFor, ParcelFor;
    if order != [] {
      var front := order[..|order| - 1];
      ParcelsIff(c, resolver, msg, email, front);
      assert forall k :: 0 <= k < |front| ==> front[k] == order[k];
    }
  }

  lemma DeliverableIff(c: Config, parser: MailParser, resolver: Resolver, email: Email, order: seq<string>)
    requires Parsed(parser, email).Ok? && IsOrder(order, Parsed(parser, email).value.rcpt)
    ensures Deliverable(parser, resolver, email) <==>
              Parcels(c, resolver, Parsed(parser, email).value, email, order).Some?
  {
    hide ServerFor, ParseAddress, InDomain, HasServer, Parcels, ParseAll;
    var msg := Parsed(parser, email).value;
    ParcelsIff(c, resolver, msg, email, order);
    ParsedFrom(parser, email.recipients);
    SameLength(parser, email);
    forall i | 0 <= i < |email.recipients|
      ensures InDomain(parser, email.recipients[i], msg.rcpt[i].domain)
      ensures forall d :: InDomain(parser, email.recipients[i], d) ==> d == msg.rcpt[i].domain
      ensures HasServer(resolver, msg.rcpt[i].domain) <==> ServerFor(resolver, msg.rcpt[i].domain).Ok?
      ensures msg.rcpt[i].domain in order
    {
      DomainIs(parser, email.recipients[i]);
      HasServerIff(resolver, msg.rcpt[i].domain);
    }
    forall k | 0 <= k < |order|
      ensures exists i :: 0 <= i < |email.recipients| && msg.rcpt[i].domain == order[k]
    {
      assert order[k] in order;
    }
  }

  // The answer to a message, exactly: 450 if it or an address in it cannot be read,
  // 452 for no recipients or too many, 554 if a recipient's domain has no server;
  // otherwise it is accepted.
  lemma AnswerIff(c: Config, parser: MailParser, resolver: Resolver, email: Email, order: seq<string>)
    requires Parsed(parser, email).Ok? ==> IsOrder(order, Parsed(parser, email).value.rcpt)
    ensures var err := Handled(c, parser, resolver, email, order).0;
            var counted := 1 <= |email.recipients| <= c.maxRecipients;
            && (err.Some? ==> err.value.Coded?)
            && (err.Some? && err.value.code == 450 <==> !Readable(parser, email))
            && (err.Some? && err.value.code == 452 <==> Readable(parser, email) && !counted)
            && (err.Some? && err.value.code == 554 <==>
                  Readable(parser, email) && counted && !Deliverable(parser, resolver, email))
            && (err == None <==> Readable(parser, email) && counted && Deliverable(parser, resolver, email))
  {
    hide Parsed, Parcels, Readable, Deliverable, IsOrder;
    ReadableIff(parser, email);
    if Parsed(parser, email).Ok? {
      DeliverableIff(c, parser, resolver, email, order);
    }
  }

  // ----- The TCP listener -----------------------------------------------------

  // Over TCP a recipient is queued exactly if its message can be read and has no
  // more recipients than allowed, and its own domain has a server.
  lemma TcpQueuedIff(c: Config, parser: MailParser, resolver: Resolver, email: Email, order: seq<string>, i: nat,
                     d: string)
    requires Parsed(parser, email).Ok? ==> IsOrder(order, Parsed(parser, email).value.rcpt)
    requires i < |email.recipients| && InDomain(parser, email.recipients[i], d)
    ensures (exists p :: p in Accepted(c, parser, resolver, email, order)
                         && email.recipients[i] in p.letter.recipients)
            <==> Readable(parser, email) && |email.recipients| <= c.maxRecipients && HasServer(resolver, d)
  {
    hide Parsed, Readable, IsOrder, InDomain, HasServer, Reachable;
    ReadableIff(parser, email);
    HasServerIff(resolver, d);
    DomainIs(parser, email.recipients[i]);
    if Parsed(parser, email).Ok? && !BadCount(c, email) {
      DomainOf(parser, email, i);
      TcpQueuesIff(c, parser, resolver, email, order, i);
    }
  }

  lemma DomainOf(parser: MailParser, email: Email, i: nat)
    requires Parsed(parser, email).Ok? && i < |email.recipients|
    ensures i < |Parsed(parser, email).value.rcpt|
    ensures ParseAddress(parser, email.recipients[i]) == Ok(Parsed(parser, email).value.rcpt[i])
  {
    hide ParseAddress;
    ParsedFrom(parser, email.recipients);
  }

  // An address that net/mail reads, without an at sign: the program panics.
  predicate NoAtSign(parser: MailParser, raw: string) {
    parser(raw).Some? && '@' !in parser(raw).value.0
  }

  lemma PanicsOn(parser: MailParser, raw: string)
    ensures ParseAddress(parser, raw) == Err(Panics) <==> NoAtSign(parser, raw)
    ensures ParseAddress(parser, raw).Ok? <==> HasDomain(parser, raw)
  {
    HasDomainIff(parser, raw);
    if parser(raw).Some? {
      var address := parser(raw).value.0;
      ContainsIffOccurs(address, "@");
      if !Contains(address, "@") {
        forall i | 0 <= i < |address| ensures address[i] != '@' {
          assert !OccursAt(address, "@", i) && address[i..i + 1] == [address[i]];
        }
      } else {
        var i: nat :| OccursAt(address, "@", i);
        assert address[i..i + 1][0] == address[i];
      }
    }
  }

  lemma {:induction false} FirstFault(parser: MailParser, raws: seq<string>)
    ensures ParseAll(parser, raws) == Err(Panics)
            <==> exists i :: 0 <= i < |raws| && NoAtSign(parser, raws[i])
                   && forall k :: 0 <= k < i ==> HasDomain(parser, raws[k])
  {
    hide ParseAddress, NoAtSign, HasDomain;
    if raws != [] {
      var front := raws[..|raws| - 1];
      FirstFault(parser, front);
      AllReadIff(parser, front);
      forall i | 0 <= i < |raws|
        ensures ParseAddress(parser, raws[i]) == Err(Panics) <==> NoAtSign(parser, raws[i])
        ensures ParseAddress(parser, raws[i]).Ok? <==> HasDomain(parser, raws[i])
      {
        PanicsOn(parser, raws[i]);
      }
      assert forall i :: 0 <= i < |front| ==> front[i] == raws[i];
    }
  }

  // A message makes the program panic exactly if the first of its addresses without
  // a domain, the sender's coming first, is one that net/mail reads without an at sign.
  lemma PanicIff(parser: MailParser, email: Email)
    ensures Parsed(parser, email) == Err(Panics)
            <==> || NoAtSign(parser, email.sender)
                 || (HasDomain(parser, email.sender)
                     && exists i :: 0 <= i < |email.recipients| && NoAtSign(parser, email.recipients[i])
                          && forall k :: 0 <= k < i ==> HasDomain(parser, email.recipients[k]))
  {
    hide ParseAddress, NoAtSign, HasDomain, ParseAll;
    PanicsOn(parser, email.sender);
    FirstFault(parser, email.recipients);
  }
}
