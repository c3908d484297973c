// One attempt at an entry, as SendMail of sender.go makes it: signing, the
// conversation with the exchanger, and what its outcome means for the queue.
module Attempts {
  import opened Wrappers
  import opened Text
  import opened Signing
  import opened SharedBuffer
  import opened Headers
  import SignatureField
  import SmtpClient
  import Session
  import Status

  // DKIMEnabled, the key repository and ServerHostName.
  datatype Settings = Settings(dkimEnabled: bool, repo: map<string, RepoKey>, hostname: string)

  // What goes to the exchanger: the signed message, or the data of the entry, as
  // signing left them, where signing is off or fails.
  function Outgoing(c: Settings, senderDomain: string, time: string, data: string, spare: nat): string {
    if !c.dkimEnabled then data
    else
      match DkimSignSpec(c.repo, senderDomain, time, data, spare)
      case Ok(signed) => signed.message
      case Err(_) => AfterDkimSign(c.repo, senderDomain, data, spare)
  }

  method PrepareData(c: Settings, senderDomain: string, time: string, data: Slice) returns (out: string)
    requires data.Fits()
    modifies data.arr
    ensures out == Outgoing(c, senderDomain, time, old(data.View()), data.cap - data.len)
    ensures data.View() == if c.dkimEnabled then
                             AfterDkimSign(c.repo, senderDomain, old(data.View()), data.cap - data.len)
                           else old(data.View())
  {
    hide DkimSignSpec, AfterDkimSign;
    if c.dkimEnabled {
      var r := DkimSign(c.repo, senderDomain, time, data);
      if r.Err? {
        return data.View();
      }
      return r.value;
    }
    return data.View();
  }

  // Without a signature the exchanger gets the data of the entry themselves; only a
  // failing RSA leaves what canonicalisation wrote behind their last visible byte.
  lemma UnsignedIsTheData(c: Settings, senderDomain: string, time: string, data: string, spare: nat)
    requires c.dkimEnabled ==> DkimSignSpec(c.repo, senderDomain, time, data, spare).Err?
    ensures !c.dkimEnabled || !Contains(data, "\r\n")
            || DkimSignSpec(c.repo, senderDomain, time, data, spare).error != RsaFailed ==>
              Outgoing(c, senderDomain, time, data, spare) == data
    ensures c.dkimEnabled && Contains(data, "\r\n")
            && DkimSignSpec(c.repo, senderDomain, time, data, spare) == Err(RsaFailed) ==>
              && SplitEml(data).Some?
              && var (header, body) := SplitEml(data).value;
                 Outgoing(c, senderDomain, time, data, spare) == header + "\r\n\r\n" + AfterSimple(body, spare)
  {
    hide DkimSignSpec, NewConf, Fields, Selected, Names, Block, Cut, ReplaceLf, AfterSimple;
    SignatureField.SigningSucceedsIff(c.repo, senderDomain, time, data, spare);
  }

  // A retry, and every other entry of the message, finds the data as an earlier
  // attempt left them and sends the same.
  lemma RetrySendsTheSame(c: Settings, senderDomain: string, time: string, data: string, spare: nat)
    requires c.dkimEnabled
    ensures var left := AfterDkimSign(c.repo, senderDomain, data, spare);
            && Outgoing(c, senderDomain, time, left, spare) == Outgoing(c, senderDomain, time, data, spare)
            && |left| == |data|
  {
    hide DkimSignSpec, AfterDkimSign;
    DkimSignAgain(c.repo, senderDomain, time, data, spare);
    SameLength(c.repo, senderDomain, data, spare);
  }

  lemma SameLength(repo: map<string, RepoKey>, domain: string, data: string, spare: nat)
    ensures |AfterDkimSign(repo, domain, data, spare)| == |data|
  {
    hide AfterSimple;
  }

  // The attempt: no failure, or the code of the error as the queue reads it. Net is
  // the text of an error of the connection.
  method Attempt(c: Settings, server: Session.Config, world: nat -> SmtpClient.Link, transfer: string -> string,
                 sender: string, recipients: seq<string>, senderDomain: string, time: string, data: Slice,
                 net: string)
    returns (failure: Option<int>, session: Session.SmtpSession, ghost accepted: bool,
             ghost lines: seq<string>, ghost first: nat)
    requires data.Fits() && SmtpClient.OneLine(c.hostname) && SmtpClient.OneLine(sender)
    requires forall i :: 0 <= i < |recipients| ==> SmtpClient.OneLine(recipients[i])
    requires net != "" && ('a' <= net[0] <= 'z' || 'A' <= net[0] <= 'Z')
    modifies data.arr
    ensures var sent := transfer(Outgoing(c, senderDomain, time, old(data.View()), data.cap - data.len));
            && (|session.deliveries| <= 1)
            && (session.deliveries != [] ==> session.deliveries[0].envelope.data == sent)
            && (failure == None && server.hasHandler ==>
                  |session.deliveries| == 1 && SmtpClient.Accepts(session.deliveries[0].result))
            && (failure == None ==> accepted)
            && (session.deliveries != [] && SmtpClient.Mailboxes(sender, recipients)
                && SmtpClient.PlainRefusals(world) ==>
                  session.deliveries[0].envelope == Session.Envelope(sender, recipients, sent))
            && (SmtpClient.AllWell(server, world, c.hostname, sender, recipients, sent) ==> failure == None)
    ensures data.View() == if c.dkimEnabled then
                             AfterDkimSign(c.repo, senderDomain, old(data.View()), data.cap - data.len)
                           else old(data.View())
  {
    hide Outgoing, AfterDkimSign, SmtpClient.AllWell, SmtpClient.PlainRefusals, SmtpClient.Mailboxes;
    hide SmtpClient.Accepts, SmtpClient.AsRead, SmtpClient.Conversation, SmtpClient.Interrupted;
    var text := PrepareData(c, senderDomain, time, data);
    var err;
    err, session, accepted, lines, first :=
      SmtpClient.SendMail(server, world, transfer, c.hostname, sender, recipients, text);
    if err.Some? {
      failure := Some(Status.ParseOutcomingError(Status.ErrorText(err.value, net)).code);
    } else {
      failure := None;
    }
  }
}
