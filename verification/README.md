# A verified model of the SMTP relay

The relay takes messages in over SMTP and over a TCP packet protocol, splits
them by recipient domain, queues them, signs them with DKIM and delivers them
with retries. This project models its stateful parts in Dafny and proves what
they keep over whole runs.

`dafny verify dfyconfig.toml` checks everything.

| module | models |
|---|---|
| `Pipeline`, `Conservation`, `Retries`, `Deadlock`, `Drain`, `Schedule` | the queues and tasks of `mq.go` and `sender.go` as a step relation over every interleaving: two bounded channels, the dispatcher, the limited pool of senders, the retry task, the flusher, a clock |
| `RelayTasks` | the same code as it runs on its global channels, each method proved to be one step of `Pipeline` |
| `Dns`, `Status` | choice of the mail exchanger; how an error text decides between retry and drop |
| `Text`, `Headers`, `Body`, `SharedBuffer`, `Signing` | DKIM: splitting, canonicalising, hashing and signing, with Go slices as array, offset, length and capacity |
| `Siblings`, `Races` | several senders signing one message at once: every interleaving of their accesses to the shared buffer |
| `HeaderLines`, `Verifier`, `SignerVerifier`, `SignatureField` | a verifier written from RFC 6376, its agreement with the signer, and what it reads from the signature field |
| `Session`, `SessionLaws`, `SessionHistory`, `Refusals` | the SMTP server session, as an object and as a function of the commands; what each command means to a client; what holds over whole sessions |
| `Addressing`, `SmtpClient` | the SMTP client, run against that session object |
| `Attempts` | one attempt of `sender.go`: signing, the conversation with the exchanger, the code that decides on a retry |
| `Intake`, `Entries` | parsing, splitting by domain and queueing of both listeners; what every queued entry carries |
| `Bits`, `Uuid`, `LogFile`, `LogLimits`, `Wrap` | version 1 UUIDs, log file rotation and its limits, the in-place line wrapper |

## Main results

- **Conservation.** In every interleaving each pushed entry is at exactly one
  place and carries the letter it was pushed with; the entries leave each channel
  in the order in which they entered it.
- **Deadlock, exactly.** Senders push to the error queue while the retry task
  pushes to the mail queue. With M, E and S the two capacities and the number of
  senders, no reachable state with 1 to M + E + S + 1 live entries is stuck; the
  stuck states are exactly the fully loaded ones; one with M + E + S + 2 entries
  is reachable if and only if `DeferredMailMaxErrors` is at least 2; only a flush
  frees it.
- **Retries, exactly.** A failed attempt ends in a drop if and only if the code is
  5xx, the entry was flushed before it, or max(1, `DeferredMailMaxErrors`) attempts
  were made; otherwise it waits for the delay. So in every run without 5xx answers
  an entry that no flush touched is dropped after exactly that many attempts.
  Attempts are at least the delay apart, attempt k goes to exchanger k mod l or to
  the relay, and every goroutine step lowers a measure.
- **Draining.** From every reachable state with at most M + E + S + 1 live
  entries, without new mail, every entry is sent or dropped: some run gets there,
  and no schedule can avoid it, since the steps are bounded and a state in which
  no entry can move, now or after a wait, has no live entry.
- **Signer and verifier.** A verifier of RFC 6376 rebuilds from the emitted
  message the very header block that was hashed if and only if the message had no
  signature yet and, for every signable name it has, the topmost field in the
  code's relaxed form is the bottommost in the standard's. This holds for every
  header block; in well-formed ones it means that repeated signable fields do not
  differ. The whole verification of a relayed message, header, body and signature,
  succeeds if and only if also the body ends in a way that simple canonicalisation
  and signing keep. The field it reads is the one that names the key: every tag of
  it is given, and the key name is made of the selector and the domain of the key
  that signed.
- **The shared buffer.** Simple canonicalisation writes into the buffer that all
  entries of a message share. Signings one after the other hash the same body.
  Concurrent ones race: all senders hash and send what one alone would, in every
  interleaving of their accesses, if and only if no line break is written over a
  byte that the loop skips at a later comparison. In every run they end, and
  no byte up to the last visible one is lost.
- **Delivery history.** In every session run, whatever the callbacks answer, a
  Handler call carries the sender of the open MAIL and exactly the recipients
  taken since, with nothing that ends a transaction between; these are the
  recipients the replies accepted if and only if no RCPT answered 250 was a
  refusal. A transaction reaches the Handler exactly if a recipient was taken.
- **Commands.** The session takes its commands in any letter case. For each of
  them it is said when it succeeds, which code it is answered and what changes:
  exact conditions over all states, configurations and callback results.
- **Client and server.** When the client's message data is answered 250, the
  session has called its Handler exactly once, with the sender and the
  recipients as the server read them and that text, and the Handler did not
  refuse. The MAIL was not refused, and a RCPT can only have been refused with a
  code from 250 to 259; without such refusals mailbox addresses reach the Handler
  as they were given. A conversation that gets there ends with QUIT, and the client
  reports an error then exactly if QUIT was not answered; one that does not get
  there is a beginning of the same commands. If the network and the callbacks do
  their part, the client succeeds and the session is closed. Together with
  `Intake`, a message seen accepted is queued for every recipient.
- **Entries.** Every queued entry has the sender, the data and the id of its
  message, all its recipients of one domain and no others, the domain of the sender
  as the one to sign for, and as its server the relay or the first exchanger of its
  domain. A message is answered 450, 452 or 554 in exactly the cases told in terms
  of its addresses and the lookups.
- **UUIDs, logs, lines.** The clock compensation works exactly for clocks that
  move by more than 1024 ticks, and then all UUIDs of a run differ. Log rotation
  loses and overwrites nothing, and in a file that the writer began each line
  was written before the file was full and on the day of the lines before it.
  The wrapper folds exactly the spaces that have more than 76 bytes before them,
  without a line break or a fold among the last 76; unfolding undoes it exactly
  for texts without folds of their own, and a second wrapping changes nothing
  exactly where no space is left in column 76 below the first line.

## Properties that fail, and their exact conditions

- Simple body canonicalisation differs from section 3.4.3 of RFC 6376 for bodies
  whose trailing bytes are not whole line breaks (`Body.SimpleIsRfcIff`), the
  relaxed one from section 3.4.4 for bodies without a visible byte
  (`Body.RelaxedIsRfcIff`).
- Relaxed body canonicalisation is idempotent exactly for empty bodies and bodies
  with a visible byte (`Body.RelaxedIdempotentIff`).
- The relaxed form of a field differs from section 3.4.2 of RFC 6376 exactly when
  there is white space other than single spaces inside the field's name
  (`Headers.RelaxedIsRfcIff`).
- A body hash does not always verify: of a body with a visible byte, what follows
  the last byte outside CR, LF and space must be nothing, or two bytes and whole
  line breaks; any other body must not end in a line break
  (`SignerVerifier.BodyHashAgreesIff`).
- Two senders of one message can hash different bodies. The loop condition of
  `dkim/dkim.go`, line 82, reads a byte once for each of its three comparisons,
  and a line break that another sender writes in between makes it stop too early:
  of "abc \r\n" one of them can hash "abc\r\r\n" (`Races.SpaceBeforeBreak`). With
  two or more senders on the buffer all agree in every run if and only if the body
  has no byte outside CR, LF and space, or the buffer has no room for the two bytes
  at the cut, or nothing follows the last such byte, or a CR does and no space
  behind it (`Races.AllAgreeIff`).
- A second signature on a signed message never verifies
  (`SignerVerifier.SecondSignatureFails`).
- An address with white space, a colon or two at signs is not read back by the
  server (`Addressing.AddressSurvivesIff`); a colon can silently shorten it
  (`Addressing.ColonTruncates`).
- Recipients whose domains differ only in letter case are queued more than once
  (`Intake.PushedPartitionIff`).
- Wrapping twice can change the text again (`Wrap.WrapTwiceDiffers`); it does not
  exactly when the first pass left no space in column 76 below the first line
  (`Wrap.WrapTwiceIff`), and a text is left alone exactly when all its spaces
  stand within their limits (`Wrap.UnchangedIff`).
- A RecipientChecker of the smtpd package that refuses with code 250 makes the
  replies promise a recipient that the Handler does not get
  (`Refusals.RefusedRecipientMisleads`); replies and delivery agree exactly when
  no RCPT answered 250 was a refusal (`SessionHistory.DeliveryHistory`,
  `SessionHistory.TakenIsAcceptedIff`). A MAIL refused with code 250 only opens
  nothing. The relay itself sets no checkers (`smtplistener.go`, lines 154 to 159).

## Model

| member | source | states |
|---|---|---|
| `RelayTasks.Relay.PushMail` | mq.go:43-47 | blocks exactly when the mail channel is full, else appends the entry: one arrival step |
| `RelayTasks.Relay.PopMail` | mq.go:49-52 | the dispatcher takes the oldest entry, blocking on an empty channel: one step |
| `RelayTasks.Relay.StartSendMail` | sender.go:25-31 | the entry goes into flight when a limiter token is free, one token per unfinished send |
| `RelayTasks.Relay.HandleFailure` | sender.go:59-83 | drop on 5xx or at the error limit, else one more error, new due time and next server; `Retries.DroppedIff` says when a drop is due |
| `Attempts.PrepareData` | sender.go:38-50 | the signed message, or the data of the entry where signing is off or fails; what signing leaves in the shared data |
| `Attempts.UnsignedIsTheData` | sender.go:40-50 | without signing, or where it fails, the exchanger gets the data of the entry; only a failing RSA signature leaves the line break that canonicalisation wrote |
| `Attempts.RetrySendsTheSame` | sender.go:38-50 | a retry, or another entry of the message, finds the data as signing left them and sends the same |
| `Attempts.Attempt` | sender.go:38-60 | no failure means one accepted Handler call with the text of `PrepareData`; a failure gives the code that the queue decides by; if everything works, no failure |
| `RelayTasks.Relay.EndAttempt` | sender.go:52-92 | the finished attempt leaves flight for sent, dropped or the push to the error queue |
| `RelayTasks.Relay.PushError` | mq.go:54-58 | blocks exactly when the error channel is full, else appends: the deferring step |
| `RelayTasks.Relay.ReceiveError` | mq.go:60-62 | the retry task receives one entry and holds at most one |
| `RelayTasks.Relay.AwaitDue` | mq.go:63-67 | sleeping a second at a time, whatever the resolution of the clock, is a legal run that ends no earlier than the due time and, if it slept, less than a second late |
| `RelayTasks.Relay.PushRetry` | sender.go:18-23 | the extracted entry goes back to the mail channel when there is room |
| `RelayTasks.Relay.FlushErrors` | mq.go:69-76 | a legal run that moves the error queue, in order and with forced counters, behind the mail queue, or stops holding one entry at a full mail channel |
| `Conservation.ConservedStep` | sender.go:18-92 | every step keeps: each ticket counted once over all places, each letter as pushed |
| `Conservation.ConservedRun` | sender.go:18-92 | so does every run, and what was pushed is what arrived, in order |
| `Conservation.ExactlyOnePlace` | mq.go:43-76 | at every moment of every run each arrived letter is carried, unchanged, at exactly one position of one place |
| `Conservation.NoStrangers` | mq.go:43-76 | no place holds an entry that did not arrive |
| `Conservation.FirstInFirstOut` | mq.go:43-76 | in every run what was in a channel and entered it is, in order, what left it and what is in it |
| `Retries.LedgerStep` | sender.go:58-86 | every step keeps the ledger that ties attempts, error counter and flush mark at each place |
| `Retries.BoundedRetries` | sender.go:58-86 | at most max(1, DeferredMailMaxErrors) attempts; error queue entries have 1 <= ErrorCount < DeferredMailMaxErrors; finished entries were attempted |
| `Retries.OneAttemptAfterFlush` | mq.go:69-76 | a flushed entry is never deferred again and gets exactly one more attempt |
| `Retries.DroppedIff` | sender.go:59-86 | a failed attempt drops the entry if and only if the code is 5xx, a flush came before it or max(1, DeferredMailMaxErrors) attempts were made; otherwise the entry is deferred with the code, one error for each attempt, the delay ahead, and the next server |
| `Retries.WhyDropped` | sender.go:59-71 | in every run each dropped entry was dropped by a failed attempt of its own at which that held |
| `Retries.AllAttemptsMade` | sender.go:65-71 | in every run without 5xx codes a dropped entry that was never flushed has had exactly max(1, DeferredMailMaxErrors) attempts |
| `Retries.MeasureFalls` | sender.go:18-92 | every step of a goroutine lowers the measure of remaining attempts and positions |
| `Retries.MeasureExternal` | mq.go:43-76 | what an arrival, a clock tick and a flush signal add to the measure |
| `Retries.WorkBound` | smtprelay.go:145-149 | over a run the goroutines take at most as many steps as the initial measure plus what arrived allow |
| `Retries.NoWorkLeft` | smtprelay.go:145-149 | measure zero means every entry is sent or dropped |
| `Deadlock.CapacityRun` | mq.go:36-41 | every run keeps channel capacities, one token per in-flight send and one-entry hands |
| `Deadlock.SomeMove` | sender.go:18-37 | names an enabled move in every live state that is neither fully loaded nor waiting for the clock |
| `Deadlock.FullyLoadedIsStuck` | sender.go:84 | in a fully loaded state no entry can move, and it holds M + E + S + 2 entries and the flusher's |
| `Deadlock.StuckIffFullyLoaded` | sender.go:18-37 | the stuck states are exactly the fully loaded ones |
| `Deadlock.ProgressBelowThreshold` | sender.go:18-37 | with 1 to M + E + S + 1 live entries some entry can move or is waiting for its time |
| `Deadlock.DeadlockReachable` | sender.go:84 | a run that ends stuck with M + E + S + 2 entries |
| `Deadlock.DeadlockNeedsRetries` | sender.go:65-71 | the deadlock is reachable if and only if DeferredMailMaxErrors >= 2 |
| `Deadlock.StuckUntilFlush` | mq.go:69-76 | without a flush a deadlocked system never changes again |
| `Deadlock.FlushFrees` | mq.go:69-76 | a flush lets a blocked sender and then the dispatcher go on |
| `Drain.LiveStep` | sender.go:18-92 | no step but an arrival makes an entry live |
| `Drain.DrainsBelowThreshold` | smtprelay.go:145-149 | from every reachable state with at most M + E + S + 1 live entries a run without arrivals ends with every entry sent or dropped |
| `Drain.EverySchedule` | smtprelay.go:145-149 | and in every run without arrivals from there the goroutines take boundedly many steps, and exactly a state with every entry sent or dropped has no move left, now or after a wait |
| `Schedule.Backoff` | sender.go:72-73 | consecutive attempts start at least DeferredMailDelay apart unless a flush forced the last one |
| `Schedule.AttemptsRotate` | sender.go:74-83 | with stable usable lists attempt k of an entry goes to exchanger k mod l, without its last dot and at port 25 |
| `Schedule.AttemptsGoToRelay` | sender.go:75-76 | in relay mode every attempt of every entry goes to the relay |
| `Schedule.EveryExchangerOnce` | dns.go:35-45 | any l consecutive attempts try every exchanger exactly once |
| `Dns.GetRoundElement` | dns.go:35-45 | the subtraction loop selects element errorCount mod l, and fails exactly on an empty list |
| `Dns.LookupMailServer` | dns.go:9-33 | every way to fail in its order, else the host without its dot and with port 25 |
| `Dns.LookupIff` | dns.go:9-33 | the lookup gives a server if and only if domain and host are not the local ones and the host at position errorCount mod l is not empty: that host without its last character, at port 25 |
| `Dns.WindowVisitsEachOnce` | dns.go:40-42 | l consecutive counters hit every list position exactly once |
| `Dns.UsableListNeverFails` | dns.go:9-33 | a list of valid hosts never fails and yields the host at the position |
| `Status.ErrorRoundTrip` | status.go:62-83 | a printed error with a code from 100 is read back with its code and its message without trailing white space |
| `Status.AtoiIff` | status.go:78-81 | a code is read exactly from decimal digits, with or without a sign, of 64 bits |
| `Status.ParsedIs` | status.go:62-83 | the code is the first word if that is a number, with what follows the space as message; else 450 with the whole text, or a fixed message for less than three bytes |
| `Status.WordsAreTemporary` | status.go:62-83 | a text that begins with a letter counts as code 450 |
| `Status.GivenUpIff` | sender.go:59-70 | a failed attempt has a code of class 5, for which the entry is dropped at once, if and only if the server answered 5xx; a broken connection never has |
| `Headers.ParseHeaderList` | dkim/headerlist.go:13-26 | the loop with its last-header index computes the folded field list |
| `Headers.FieldsAreUnique` | dkim/headerlist.go:13-26 | that list is the one way to cut the header block into fields: lines that only continue each other, none but the first beginning like a continuation |
| `Headers.FieldsPrintBack` | dkim/headerlist.go:13-26 | the parsed fields joined by CRLF are the header block, for every byte string |
| `Headers.HeaderRoundTrip` | dkim/headerlist.go:49-55 | parsing and printing unrelaxed gives the header block and CRLF |
| `Headers.FieldsAppend` | dkim/headerlist.go:13-26 | a line added below goes to the last field if it begins with a space or a tab and is one more field otherwise; no other field changes |
| `Headers.FindHeader` | dkim/headerlist.go:28-36 | the loop returns the field `Get` defines |
| `Headers.GetIsFirst` | dkim/headerlist.go:28-36 | that field is the topmost one with the key |
| `Headers.FieldNames` | dkim/headerlist.go:38-47 | the names as written, without the signature field, joined by colons |
| `Headers.CanonicalList` | dkim/headerlist.go:49-55 | the canonical fields in order, each with CRLF |
| `Headers.RelaxedIsRfcIff` | dkim/header.go:26-49 | the relaxed form of a well-formed field is that of section 3.4.2 of RFC 6376 if and only if white space inside its name is single spaces only |
| `Body.SimpleIsRfcIff` | dkim/dkim.go:73-88 | the simple body is that of section 3.4.3 if and only if the body conforms |
| `Body.SimpleBodyIs` | dkim/dkim.go:80-88 | the simple body is cut behind the last byte that is not CR, LF or space, or nowhere if there is none, and ends in CRLF |
| `Body.SimpleDiffersOnBlank` | dkim/dkim.go:80-88 | a body on which the two differ |
| `Body.RelaxedIsRfcIff` | dkim/dkim.go:57-88 | for bodies with CR and LF only as CRLF the relaxed body is that of section 3.4.4 if and only if it is empty or has a visible byte |
| `Body.RelaxedIdempotent` | dkim/dkim.go:57-88 | relaxed canonicalisation is idempotent on clean bodies that are empty or have a visible byte |
| `Body.RelaxedIdempotentIff` | dkim/dkim.go:57-88 | it is idempotent on a clean body if and only if the body is empty or has a visible byte; any other grows each time |
| `SharedBuffer.Truncate` | dkim/dkim.go:80-86 | the backward loop cuts after the last byte outside CR, LF and space |
| `SharedBuffer.AppendCrlf` | dkim/dkim.go:88 | append writes in place exactly when two bytes of capacity are left |
| `SharedBuffer.SimpleInPlace` | dkim/dkim.go:73-88 | simple mode returns the canonical body and changes at most the two bytes at the cut |
| `SharedBuffer.CanonicalBodyInPlace` | dkim/dkim.go:62-89 | result and effect on the caller's array in both modes |
| `SharedBuffer.AfterSimpleKeepsCore` | dkim/dkim.go:80-88 | no byte up to the last one outside CR, LF and space changes |
| `SharedBuffer.RecomputeSame` | dkim/dkim.go:80-88 | recomputing on the changed buffer gives the same body and changes nothing more |
| `SharedBuffer.AllSigningsAgree` | smtplistener.go:139-145 | any number of signings of the shared buffer, one after the other, hash the same body and leave its length |
| `Siblings.OwnAccess` | dkim/dkim.go:80-97 | without a race, whatever the others did meanwhile, a signer's next access to the shared buffer keeps it on the way to the result of a signer alone |
| `Siblings.OtherAccess` | dkim/dkim.go:80-97 | in a race-free buffer it takes no other signer off its way |
| `Siblings.EverySignerAgrees` | sender.go:25-50 | one signer, or any number in a race-free buffer: in every interleaving of their accesses, each comparison of the loop reading its byte anew, each that is done has hashed the same body and sent the same bytes as one alone |
| `Siblings.EverySignerEnds` | dkim/dkim.go:80-97 | in every interleaving each signer is done after at most 5 l + 7 accesses of its own, l being the length of the body |
| `Siblings.VisibleBytesSurvive` | dkim/dkim.go:80-88 | in every interleaving, race or not, the bytes up to the last one outside CR, LF and space come through: in the buffer, in what is hashed and in what is sent |
| `Races.SomeRace` | dkim/dkim.go:82 | every buffer that is not race-free has a run in which the second signer hashes a body with one or two bytes too many |
| `Races.AllAgreeIff` | dkim/dkim.go:80-97 | n signers hash and send what one alone would in every run if and only if n is at most 1 or the buffer is race-free |
| `Races.SpaceBeforeBreak` | dkim/dkim.go:82 | a space before the last line break: a run of two signers in which one hashes a CR too many |
| `SharedBuffer.UnchangedIff` | dkim/dkim.go:80-88 | exactly when no visible byte changes |
| `Signing.ConfString` | dkim/conf.go:104-128 | the tags present, in the fixed order, `b=` last |
| `Signing.SelectHeaders` | dkim/dkim.go:99-107 | the topmost field of every signable name the message has, in list order |
| `Signing.SplitEmlSlice` | dkim/util.go:8-14 | header text and body slice of the same buffer, or failure exactly without an empty line |
| `Signing.Dkim.SignableHeaderBlock` | dkim/dkim.go:99-118 | sets `bh` and `h` and returns the block; the body buffer changes as simple mode leaves it |
| `Signing.Dkim.Sign` | dkim/dkim.go:134-156 | message, configuration and buffer after signing, and each failure |
| `Signing.SignAgain` | dkim/dkim.go:134-156 | a second signing of the buffer yields the same block, tags and message |
| `Signing.DkimSign` | dkim.go:86-107 | a fresh configuration per signing, a CRLF copy for messages without CRLF, errors unchanged; the `SignatureField` rows say what it emits |
| `Signing.SimpleByDefault` | dkim/conf.go:42-53 | a new configuration has relaxed headers, a simple body and an empty `b` |
| `Signing.DkimSignAgain` | sender.go:42-50 | retries and sibling entries sign the same block whatever earlier signings wrote |
| `Verifier.StrippedIsUnsigned` | dkim/conf.go:104-128 | removing the value of `b=` from the emitted field gives the field that was hashed |
| `Verifier.ListedAreNames` | dkim/headerlist.go:38-47 | a verifier reads from `h=` exactly the signed names |
| `Verifier.PickAllIsPicked` | dkim/dkim.go:99-107 | picking from the bottom in `h=` order, names read as section 3.4.2 of RFC 6376 has them, finds at most one field per signable name |
| `Verifier.SameListsIff` | dkim/dkim.go:99-107 | the lines the signer signs are the lines the verifier checks if and only if every signable name is verifiable: no signature field, and topmost and bottommost field with one relaxed form |
| `Verifier.CleanVerifiableIff` | dkim/header.go:26-49 | for well-formed fields that means: no signature of its own, and first and last field of a name canonicalise alike |
| `SignerVerifier.SigningIsNonDestructive` | dkim/dkim.go:134-156 | whatever the tag values are, as long as they have no CR or LF, the emitted message splits into the old header plus one field and the body as the buffer has it |
| `SignerVerifier.BodyKeptIff` | dkim/dkim.go:80-88 | exactly when the emitted body is the original one, for the same tag values |
| `SignerVerifier.BodyBytesAgreeIff` | dkim/dkim.go:73-97 | the standard's simple form of what signing leaves is what was hashed if and only if the input body satisfies `BodyAgrees`, whatever capacity lies behind it |
| `SignerVerifier.BodyHashAgreesIff` | dkim/dkim.go:91-156 | `bh` of the emitted message is the hash of the simple body, and a verifier hashes the same bytes of that message if and only if the input body satisfies `BodyAgrees` |
| `SignerVerifier.VerifierAgreesIff` | dkim/dkim.go:99-156 | for every header block: the verifier rebuilds the hashed block from the emitted message if and only if all signable names are verifiable |
| `HeaderLines.RfcRelaxedIsOneLine` | dkim/headerlist.go:13-26 | the standard's form of every field that the parser yields is one line, whatever stray CR or LF the field has |
| `SignerVerifier.CleanHeaderIff` | dkim/dkim.go:99-107 | in a header block with CR and LF only as CRLF and no vertical white space that means that the message is unambiguous |
| `SignerVerifier.VerifyIff` | dkim/dkim.go:91-156 | the whole verification, body hash and header block, succeeds if and only if all signable names are verifiable and both ends hash the body alike |
| `SignerVerifier.RelayedSignatureVerifiesIff` | dkim.go:86-107 | what DKIMSign emits passes the whole verification if and only if all signable names are verifiable and the body satisfies `BodyAgrees`, unless the hash collides on the two bodies |
| `SignatureField.RelayedField` | dkim/conf.go:104-128 | the fields of every message that DKIMSign emits are the old ones and one last field, given in full: the tags in order, with the key's domain and selector, the time, the body hash, the names and the signature of the block |
| `SignatureField.RelayedTags` | dkim/conf.go:42-53 | a verifier reads from it v 1, a rsa-sha256, c relaxed/simple, q dns/txt, d and s the key's own, t the time, bh and b; the key name of section 3.6.2.1 of RFC 6376 is selector, `_domainkey` and domain of the key that signed |
| `SignatureField.SignedFieldsIff` | dkim/dkim.go:19-28 | a Cc, Content-Type, Date, From, Reply-To, Subject or To is listed in `h` if and only if the message has one, in whatever letter case, and nothing else is |
| `SignatureField.SignedText` | dkim.go:97-99 | a message with a CRLF is signed as it is, any other with each LF as a CRLF and nothing else changed |
| `SignatureField.SigningSucceedsIff` | dkim.go:86-107 | signing fails for want of a key, a selector, an empty line or an RSA signature, in this order, and in no other case |
| `SignatureField.RelayedMailAcceptedIff` | dkim.go:86-107 | a verifier that also checks the signature with the key accepts the emitted message if and only if all signable names are verifiable and the body satisfies `BodyAgrees`, unless hash or signature collide |
| `SignerVerifier.OrdinaryMailIsUnambiguous` | dkim/dkim.go:19-28 | unsigned mail with every signable field at most once is unambiguous |
| `SignerVerifier.SecondSignatureFails` | dkim/dkim.go:99-107 | a message that has a signature never verifies under the new one |
| `Session.Server.ConfigureDefaults` | smtpd/smtpd.go:168-205 | the defaults in place, or the error with exactly the limits set |
| `Session.DefaultsAreStable` | smtpd/smtpd.go:168-205 | defaults are applied once, limits are not zero, ForceTLS has a TLS configuration |
| `Session.DefaultsGiven` | smtpd/smtpd.go:168-205 | the values that unset fields get; set fields stay |
| `SessionLaws.BlanksSkipped` | smtpd/protocol.go:25-39 | white space before a word does not matter, an empty line has no words |
| `SessionLaws.VerbInAnyCase` | smtpd/protocol.go:25-39 | each of the eleven commands is recognised in every letter case, alone or before arguments |
| `SessionLaws.CaseDoesNotMatter` | smtpd/protocol.go:41-73 | two lines that differ only in the letter case of their first word have the same outcome in every state |
| `SessionLaws.PlainCommands` | smtpd/protocol.go:41-73 | NOOP, RSET and QUIT succeed and do just that; any other word is answered 502 and a line that is too long 500 |
| `SessionLaws.GreetingIff` | smtpd/protocol.go:75-136 | HELO and EHLO succeed exactly with a name that the checker does not refuse, and drop the envelope exactly after an earlier greeting |
| `SessionLaws.EhloLists` | smtpd/protocol.go:101-136 | the first line is the host name, the others are exactly the extensions of the moment |
| `SessionLaws.MailIff` | smtpd/protocol.go:138-181 | MAIL opens an envelope exactly after a greeting, under TLS if forced, with none open, for a readable address that the checker takes; the code in each case |
| `SessionLaws.RcptIff` | smtpd/protocol.go:183-219 | RCPT adds the address exactly to an open envelope with room, if it is readable and the checker takes it; the code in each case |
| `SessionLaws.DataIff` | smtpd/protocol.go:266-320 | when a text is asked for, when it is delivered, when it is too long; codes and envelope in each case |
| `SessionLaws.StartTlsIff` | smtpd/protocol.go:221-264 | STARTTLS succeeds exactly with a configuration, without TLS yet and with a handshake |
| `SessionLaws.PlainCredentials` | smtpd/protocol.go:358-391 | of an identity, a name and a password packed with NULs the Authenticator decides on name and password |
| `SessionLaws.LoginCredentials` | smtpd/protocol.go:393-433 | the first text asked for is the name, the second the password |
| `SessionLaws.AuthFails` | smtpd/protocol.go:339-443 | every other end of AUTH, with its codes, leaves the session as it was |
| `SessionLaws.PortIff` | smtpd/protocol.go:487-494 | a port is a decimal number below 65536 |
| `SessionLaws.ItemMeans` | smtpd/protocol.go:461-517 | what each item of XCLIENT asks for, and that no other is known |
| `SessionLaws.ItemsInTurn` | smtpd/protocol.go:461-517 | items are taken one after the other, and one bad item fails the command |
| `SessionLaws.XclientIff` | smtpd/protocol.go:445-541 | XCLIENT succeeds exactly if enabled, over TCP and with readable items; then exactly the names given replace the peer's and a new welcome decides |
| `Session.SmtpSession.Serve` | smtpd/smtpd.go:207-230 | the loop plays the events one by one until the connection is closed: all replies and Handler calls, in order |
| `Session.SmtpSession.HandleLine` | smtpd/protocol.go:41-73 | new state, replies and Handler calls of every command; the `SessionLaws` rows say what they are |
| `Session.SmtpSession.HandleHelo` | smtpd/protocol.go:75-99 | a repeated greeting drops the envelope even if the checker then refuses |
| `Session.SmtpSession.HandleEhlo` | smtpd/protocol.go:101-136 | the same, answering with host name and extensions |
| `Session.SmtpSession.ListExtensions` | smtpd/smtpd.go:273-293 | the extensions of the current TLS state |
| `Session.SmtpSession.HandleMail` | smtpd/protocol.go:138-181 | the checks in order, then a new envelope |
| `Session.SmtpSession.HandleRcpt` | smtpd/protocol.go:183-219 | the checks in order, then one recipient more |
| `Session.SmtpSession.HandleStartTls` | smtpd/protocol.go:221-264 | 220, then TLS and no envelope, or 550 and no change |
| `Session.SmtpSession.HandleData` | smtpd/protocol.go:266-320 | delivery below the size limit, 552 from it on, nothing on a broken connection |
| `Session.SmtpSession.Deliver` | smtpd/smtpd.go:295-300 | one Handler call with the envelope, none without a Handler |
| `Session.SmtpSession.HandleAuth` | smtpd/protocol.go:339-443 | PLAIN and LOGIN dialogues, credentials stored only on success |
| `Session.SmtpSession.HandleXclient` | smtpd/protocol.go:445-541 | the item loop with its failures, then the overrides and the welcome |
| `Session.SmtpSession.SendWelcome` | smtpd/smtpd.go:241-252 | 220, or the refusal and a closed session |
| `Session.SmtpSession.HandleTooLong` | smtpd/smtpd.go:216-226 | 500 and no envelope |
| `SessionHistory.ReactOrderly` | smtpd/protocol.go:41-73 | every event keeps the invariant and never gives up TLS |
| `SessionHistory.SessionInvariant` | smtpd/smtpd.go:207-230 | in every run an open envelope implies a greeting, TLS if forced, at most MaxRecipients; a user name implies TLS unless XCLIENT is enabled |
| `SessionHistory.StartTlsDropsEnvelope` | smtpd/protocol.go:238-251 | no envelope survives STARTTLS; the greeting before it does |
| `SessionHistory.AuthChanges` | smtpd/protocol.go:339-443 | AUTH changes only the credentials, and only under TLS |
| `SessionHistory.XclientChanges` | smtpd/protocol.go:445-541 | XCLIENT changes only the peer's names, and only if enabled |
| `SessionHistory.EnvelopeStep` | smtpd/protocol.go:138-219 | what an event does to the envelope is determined by its entry: replies and refusals; only a MAIL without and a RCPT with an open transaction are answered 250 |
| `SessionHistory.TranscriptMatches` | smtpd/protocol.go:138-326 | after every run the envelope is the open MAIL and the recipients taken since; without an envelope no open MAIL has an accepted RCPT |
| `SessionHistory.TakenIsAcceptedIff` | smtpd/protocol.go:183-219 | the recipients taken are those the replies accepted if and only if no RCPT answered 250 was a refusal |
| `SessionHistory.DeliveryHistory` | smtpd/protocol.go:266-320 | every Handler call has the sender of the one open MAIL, which was not refused, the recipients taken since, in order, and data below the limit; they are the recipients answered 250 if and only if no such answer was a refusal |
| `SessionHistory.DeliveryHappens` | smtpd/protocol.go:266-320 | with an open MAIL and short enough data the Handler is reached if and only if a recipient was taken, whatever the callbacks answer |
| `SessionHistory.DishonestCheckerMisleads` | smtpd/smtpd.go:265-271 | in every session a MAIL refused with code 250 is answered 250 exactly where it would have been accepted, and opens nothing: the next RCPT is told so |
| `Refusals.RefusedRecipientMisleads` | smtpd/protocol.go:200-213 | a whole run in which a RCPT refused with code 250 is answered 250: the replies accept two recipients and the Handler gets one |
| `Addressing.WordsFirst` | smtpd/protocol.go:25-39 | the words of a line that begins with a word |
| `Addressing.ParseAddressIff` | smtpd/address.go:8-23 | accepted are exactly the bracketed texts with at most one at sign, without their brackets |
| `Addressing.AcceptedIsMailbox` | smtpd/protocol.go:25-39 | an accepted address has no white space, no colon and at most one at sign |
| `Addressing.AddressSurvivesIff` | smtp/smtp.go:222-242 | the server reads the address the client was given if and only if it is of that form |
| `Addressing.ColonTruncates` | smtpd/protocol.go:25-39 | with a colon the server can take a shorter address without an error |
| `SmtpClient.StartTlsOfferedIff` | smtp/smtp.go:119-142 | the client finds STARTTLS among the extensions exactly when the server can still switch |
| `SmtpClient.ExtensionIffListed` | smtp/smtp.go:124-137 | a name is an extension exactly if a reply line is that word or begins with it and a space |
| `SmtpClient.LastListingCounts` | smtp/smtp.go:124-137 | the last such line gives its parameters |
| `SmtpClient.Client.Dial` | smtp/smtp.go:56-66 | succeeds exactly when the greeting arrives and is coded 220; opens nothing |
| `SmtpClient.CommandTexts` | smtp/smtp.go:111-242 | the command lines as they are written |
| `SmtpClient.Client.Cmd` | smtp/smtp.go:98-107 | one command of the session, or its answer 500 to a line too long for its scanner; the first reply checked against the expected code, or a lost connection; the session moves exactly if the command arrived |
| `SmtpClient.Client.Helo` | smtp/smtp.go:111-115 | writes HELO and forgets the extensions; succeeds when the server takes the name; opens and delivers nothing |
| `SmtpClient.Client.Ehlo` | smtp/smtp.go:119-142 | writes EHLO; on success the extension map is the one the server listed, and a refused name is an error |
| `SmtpClient.Client.Hello` | smtp/smtp.go:73-82 | writes EHLO, and HELO exactly after a failure, which then decides; a repeated call writes nothing and returns the stored result |
| `SmtpClient.Client.Extension` | smtp/smtp.go:330-340 | looks the upper-case name up after the greeting |
| `SmtpClient.Client.StartTls` | smtp/smtp.go:146-158 | TLS and a new EHLO; a failed handshake ends the conversation |
| `SmtpClient.Client.Mail` | smtp/smtp.go:222-234 | writes MAIL, with BODY=8BITMIME exactly when the server listed 8BITMIME; success means the address was read, and an envelope with it and no recipients unless the SenderChecker refused with code 250 |
| `SmtpClient.Client.Rcpt` | smtp/smtp.go:239-242 | writes RCPT; success (any 25x) means the address was read, and one recipient more at the end unless the RecipientChecker refused with a code from 250 to 259 |
| `SmtpClient.Client.Data` | smtp/smtp.go:249-269 | at most one Handler call, of the open envelope with this text; success means it happened and was not refused, and the connection works |
| `SmtpClient.Client.Quit` | smtp/smtp.go:353-362 | writes QUIT and delivers nothing; on a working connection the session closes exactly if the command arrived, and there is no error exactly if its answer did |
| `SmtpClient.Client.Transfer` | smtp/smtp.go:304-322 | MAIL, the RCPT commands and DATA in order; an error leaves a beginning of them |
| `SmtpClient.Client.Open` | smtp/smtp.go:274-296 | greeting and TLS leave nothing open; on a working connection TLS is on whenever the server has it |
| `SmtpClient.Client.Address` | smtp/smtp.go:304-311 | the commands MAIL and RCPT in order; an open envelope afterwards has the sender and, in order, the recipients as the server read them, without the refused ones, whose refusals were coded 25x; on a working connection it is open and complete |
| `SmtpClient.KeptIsAllIff` | smtp/smtp.go:307-311 | the server's recipients are the client's if and only if every address survives the wire and no RCPT was refused |
| `SmtpClient.SendMail` | smtp/smtp.go:273-324 | the commands written, and at most one Handler call ever; data answered 250 means exactly one, not refused, with this text and the addresses as the server read them; with mailbox addresses and no refusal coded 25x it has this sender and these recipients; QUIT is written exactly after accepted data, and then an error means that its answer was lost; if everything works, no error and a closed session |
| `Intake.ParseDomainIff` | message.go:35-41 | the domain is found exactly for addresses with one at sign |
| `Intake.ParseMessage` | message.go:43-74 | the parsed message or the first fault, and the count of every spelling of a domain |
| `Intake.GetDomainRecipientList` | message.go:91-98 | the raw addresses whose domain equals the name up to letter case, in order |
| `Intake.GroupsWeigh` | message.go:69-72 | a recipient is queued once for every spelling of its domain |
| `Intake.GroupsPartitionIff` | message.go:91-98 | the groups hold every recipient exactly once if and only if no two domains differ only in letter case |
| `Intake.SmtpHandler` | smtplistener.go:105-152 | error code and pushed entries, for whatever order the map loop took; which fault gives which code, and no entry with an error; the `Entries` rows say what the entries are |
| `Entries.CountIsMultiplicity` | message.go:69-72 | the count of a spelling is how often it occurs |
| `Entries.PushedAreProper` | smtplistener.go:124-149 | every pushed entry: sender, data and id of the message, the parsed domain of the sender, exactly the recipients whose parsed domain is the entry's up to letter case, and as server the relay or exchanger 0 of the lower-case domain |
| `Entries.TcpEntriesAreProper` | tcplistener.go:211-236 | the same of every entry that the TCP listener pushes |
| `Entries.TcpQueuedIff` | tcplistener.go:195-236 | over TCP a recipient is queued exactly if its message can be read and has no more recipients than allowed and its own domain has a server |
| `Entries.PanicIff` | message.go:35-58 | a message makes the program panic exactly if the first of its addresses that has no domain, the sender's coming first, is one that net/mail reads without an at sign |
| `Entries.AnswerIff` | smtplistener.go:105-134 | 450 exactly for a message or an address that cannot be read, 452 exactly for no recipient or too many of a readable one, 554 exactly if then a recipient's domain has no server, accepted in all other cases |
| `Intake.PushedAreGroups` | smtplistener.go:124-149 | the recipient lists of the pushed entries, joined, are the groups of the domains in the order taken |
| `Intake.PushedPartitionIff` | smtplistener.go:124-149 | the pushed entries together hold every recipient exactly once if and only if no two domains differ only in letter case |
| `Intake.AllOrNothing` | smtplistener.go:124-149 | one entry per spelling, reaching every recipient, or an error and no entry |
| `Intake.AcceptedMeansQueued` | smtplistener.go:105-152 | a message the client saw accepted is queued for every recipient |
| `Intake.TcpMessages` | tcplistener.go:188-238 | entries of all messages of a packet, up to one whose address makes the program panic |
| `Intake.DomainEntries` | tcplistener.go:211-233 | the entries of the domains whose lookup succeeds |
| `Intake.TcpQueuesIff` | tcplistener.go:211-236 | over TCP a recipient is queued if and only if the lookup of its domain succeeds |
| `Uuid.ClockOrigin` | uuid/timestamp.go:47-51 | the ticks since 15 October 1582 |
| `Uuid.TicksApart` | uuid/timestamp.go:47-51 | clock readings 102.5 microseconds apart are more than 1024 ticks apart |
| `Uuid.Factory.CurrentTimestamp` | uuid/timestamp.go:61-81 | spins over readings it cannot use, then advances the counter by the next one |
| `Uuid.StampsAbove` | uuid/timestamp.go:61-81 | timestamps strictly increase for clocks with distinct readings more than 1024 apart |
| `Uuid.CompensationThreshold` | uuid/timestamp.go:61-81 | they do for all clocks of a given gap if and only if the gap exceeds 1024 |
| `Uuid.ClashingStamps` | uuid/timestamp.go:61-81 | for every smaller gap, calls that get the same timestamp twice |
| `Bits.OrAdds` | uuid/rfc4122.go:138-142 | or-ing a field with one above it adds the two, for operators defined on binary digits |
| `Bits.MaskThenShift` | uuid/rfc4122.go:136-141 | masking bits and shifting them down is masking the shifted word |
| `Uuid.TimeFields` | uuid/rfc4122.go:136-139 | the masks, shifts and the or of the time fields, in arithmetic |
| `Uuid.SequenceFields` | uuid/rfc4122.go:140-142 | the same for the sequence fields |
| `Uuid.Factory.Format` | uuid/rfc4122.go:134-146 | the field by field layout of a version 1 UUID, computed with the masks, shifts and ors of the source |
| `Uuid.Factory.ReadState` | uuid/state.go:62-70 | random sequence for a known node or on demand, one more for a clock gone back, else unchanged |
| `Uuid.Factory.NewV1` | uuid/rfc4122.go:58-65 | one accepted reading, the state read once, the UUID of both |
| `Uuid.FieldsRecovered` | uuid/rfc4122.go:134-146 | 60-bit time and 14-bit sequence can be read back; version 1, RFC 4122 variant |
| `Uuid.SameBytesIff` | uuid/struct.go:53-63 | equal bytes if and only if equal time, sequence and node in those bits |
| `Uuid.ParseBytes` | uuid/struct.go:44-63 | Unmarshal after Bytes gives the fields back |
| `Uuid.BytesParse` | uuid/struct.go:44-63 | Bytes after Unmarshal gives the bytes back |
| `Uuid.Struct.Unmarshal` | uuid/struct.go:44-51 | every field from its bytes |
| `Uuid.Struct.Marshal` | uuid/struct.go:53-63 | the bytes of the fields in network order |
| `Uuid.Struct.SetVersion` | uuid/struct.go:35-38 | sets the version and keeps the time |
| `Uuid.NetworkOrder` | uuid/struct.go:44-51 | the most significant byte of each field comes first |
| `Uuid.SequenceShown` | uuid/state.go:62-70 | the sequence a UUID shows: random for a known node or on demand, one more for a clock gone back, else the last one |
| `Uuid.BackwardsClockShows` | uuid/state.go:62-70 | a clock that went back changes the sequence a UUID shows |
| `Uuid.AllDifferent` | uuid/rfc4122.go:58-65 | all UUIDs of a run have different bytes, whatever nodes and sequences were drawn |
| `LogFile.FileLogWriter.constructor` | log4go/filelog.go:60-73 | opens the log file by a first rotation |
| `LogFile.FileLogWriter.IntRotate` | log4go/filelog.go:127-176 | trailer if it could be written, rename to the first free number, new file with header if it could be written, or the error and where it leaves the disk |
| `LogFile.FileLogWriter.Round` | log4go/filelog.go:83-115 | one event of the writer's loop: record, rotation request or end; a failed write leaves what it got onto the disk and ends the loop |
| `LogFile.FileLogWriter.Finish` | log4go/filelog.go:76-81 | trailer, if it could be written, and close |
| `LogFile.RotationKeepsAll` | log4go/filelog.go:83-176 | backups in number order and log file are the initial contents followed by all output |
| `LogFile.BeginKeepsAll` | log4go/filelog.go:60-115 | the same from the opening of the writer on |
| `LogFile.EveryLineWritten` | log4go/filelog.go:89-113 | while the writer runs, its output has exactly the lines asked for, in order |
| `LogFile.BackupsStay` | log4go/filelog.go:135-158 | no backup is ever changed, whatever gaps the numbers have |
| `LogFile.FilesAreLimited` | log4go/filelog.go:94-100 | with rotation on, no file the writer opened holds more than maxlines records |
| `LogLimits.RotationWrites` | log4go/filelog.go:127-176 | an unhindered rotation: the file with its trailer under the first free number, and a new file with its header |
| `LogLimits.RotationOpensIff` | log4go/filelog.go:127-176 | a rotation opens a file exactly if a number is free, the renaming works and the opening works; otherwise the writer stops, and where the lines written so far then are |
| `LogLimits.ReopeningWrites` | log4go/filelog.go:127-176 | with rotation off the file goes on with trailer and header |
| `LogLimits.JoinsFileIff` | log4go/filelog.go:94-113 | a line joins the open file exactly if that has neither maxlines lines nor maxsize bytes and, with daily on, is of the same day; otherwise it goes behind a rotation |
| `LogLimits.FilesKeepLimits` | log4go/filelog.go:94-113 | after every run, in every file that the writer began, each line was written while the file was below both limits and, with daily on, all lines are of one day |
| `LogFile.OutOfNumbers` | log4go/filelog.go:139-151 | rotation fails for want of a number exactly when 999 are taken, and then the log file keeps its contents |
| `Wrap.WrapBuffer` | smtpd/wrap.go:4-22 | ends although the buffer grows, with the wrapped text |
| `Wrap.WrappedRefolds` | smtpd/wrap.go:4-22 | the output is the input with a space folded exactly beyond column 76, or 75 after a line break of the input |
| `Wrap.RefoldsUnique` | smtpd/wrap.go:4-22 | that description determines the output |
| `Wrap.WrappedByPosition` | smtpd/wrap.go:4-22 | the output is the input with a fold for every space of the set of positions that `FoldsOf` defines: those with more than 76 bytes before them and neither an input line break nor a fold among the last 76 |
| `Wrap.FoldsExist` | smtpd/wrap.go:7-16 | there is such a set |
| `Wrap.FoldsAreUnique` | smtpd/wrap.go:7-16 | and only one |
| `Wrap.WrapKeepsSpacesEarly` | smtpd/wrap.go:7-16 | every space left is among the first 77 bytes of its line |
| `Wrap.UnfoldUndoesIff` | smtpd/wrap.go:8-16 | unfolding gives the input back if and only if it had no fold of its own |
| `Wrap.UnchangedIff` | smtpd/wrap.go:4-22 | a text is left alone if and only if each of its spaces stands within the limit of its line |
| `Wrap.WrapTwiceIff` | smtpd/wrap.go:17-20 | a second wrapping changes nothing if and only if the first left no space in column 76 below the first line |
| `Wrap.WrapTwiceDiffers` | smtpd/wrap.go:17-20 | a family of texts that a second wrapping changes again |

## Left out

- Sockets, TLS handshakes, DNS queries, gzip, protocol buffers and `net/mail`: their results are arguments.
- RSA, SHA-256 and base64 are arguments; of base64 only its alphabet is assumed. Loading of keys and of configuration files.
- SignatureField.RelayedMailAcceptedIff: a verifier accepts the one signature that a block has, as with PKCS #1 v1.5; that two blocks have one signature is excluded by a premise.
- SmtpClient.Client.Transfer: what the client writes after a command whose reply was lost is nothing; how much of a text the server got before the connection broke is not modelled.
- `textproto`: replies are a code and lines, a reply text has no line break of its own, and message data pass through an unspecified dot encoding.
- Input that a client pipelines behind a command, and a host name or address with a line break, which the client would send as two commands.
- White space and letter case beyond ASCII.
- Statistics channels and their page, signals, command-line flags, log4go's console, socket and XML writers and its wrappers, UUID versions 3 to 5 and the UUID file saver.
- Changes of the configuration during a run; a negative DeferredMailMaxErrors, which behaves like 0.
- GracefullyStop looks at queue lengths only; what is in a hand or in flight when the process exits is not covered.
- At-most-once delivery to the remote server: an error after accepted data leads to a retry.
- The peer's network address, which XCLIENT may change; deadlines and timeouts; the connection limit.
- Commands other than HELO, EHLO, STARTTLS, MAIL, RCPT, DATA and QUIT of the client: SendMail is called without authentication.
- The file writer assumes that nothing else touches its files and that a failed header or trailer write writes nothing; SetHeadFoot and the other setters are not modelled.
- UUID state is modelled without a saver, its set-up from network interfaces is not; the random numbers are arguments.
- The limiter tokens of the TCP listener.
- RelayTasks.Relay.EndAttempt: the limiter token is given back in the step that ends the attempt, not one instruction later.
- Session.SmtpSession.HandleAuth: a line without a mechanism makes the program panic; the model marks the session as crashed and says nothing of the process.
- SignerVerifier.VerifierAgreesIff: assumes tag values of one line without semicolons; with others the emitted field has other tags than the configuration.
- Races.AllAgreeIff: each access to one byte is atomic and seen by all, and each comparison in the source is one access; the Go memory model promises less for accesses without synchronisation, and a compiler may merge the three reads.
- Wrap.WrapBuffer: the buffer is an immutable sequence; what append leaves in the spare capacity of the caller's slice is not modelled.
- SmtpClient.SendMail: each exchange fails before the command or after it, never in the middle of a line.
- SessionHistory.StartTlsDropsEnvelope: a comment in the source says that a new greeting is required after STARTTLS; the code does not ask for one, and the model follows the code.
- Uuid.Factory.ReadState: section 4.2.1 of RFC 4122 asks for a new random sequence when the node has changed; the code draws one when it has not, and the model follows the code.
