# Trojitá mail submission and redirect composers, modelled in Dafny

This project models the part of the Trojitá mail client that submits
messages and redirects them:

- **The SMTP client (`MSA::SMTPClient`).** It covers:
  - its command queue of tagged commands (`Commands::Command`), which it writes part by part;
  - the reply-line parser (status, optional enhanced status code, text, continuation flag);
  - the parsing of the EHLO capability lines;
  - the state machine `nextCommand`, keyed on the last command and the reply status;
  - the AUTH PLAIN credentials, Base64 encoded;
  - the dot-stuffing of the message body (section 4.5.2 of RFC 5321).
- **The driver `MSA::SMTP`.** It holds the mail parameters. It asks for a password when authentication needs one, and hands everything to the client when the client connects. It supports the DATA and BURL modes.
- **The Resent-\* header block (section 3.6.6 of RFC 5322).** Both redirect composers write it in front of the original message:
  - `RedirectMessageComposer` names its id header `Resent-Message-ID:`;
  - `MessageRedirect` names it `Message-ID:`.
- **`OutgoingMessage`.** It holds the sender, the recipients and the timestamp.
- **The envelope form of the compose window.** It covers:
  - recipient rows that are added and removed;
  - the sweep that keeps exactly one empty row;
  - the kind a new row gets;
  - the parsing of the rows into recipients;
  - the scroll slider's maximum;
  - the mapping from a visible row to a layout row.
- **The pure parts of the compose window.** They are:
  - the trimming of the References header to 998 characters, as RFC 5537 advises;
  - the stripping of angle brackets from message ids;
  - the draft file, versions 1 to 3, written and read back;
  - the save-on-close decision and the checks before a message is built.

The client's state is a `class` whose methods update its fields. Each
method is proved against a function on a value snapshot of that state,
`SmtpClient.Session`:
- `Respond` handles one reply;
- `RespondAll` handles a run of reply lines;
- `Execute` writes the head of the queue.

Lemmas about those functions state what a dialogue does. Examples: the
greeting queues and writes `EHLO localhost`, an EHLO reply announcing
AUTH PLAIN writes `AUTH PLAIN`, and command tags stay strictly
ascending.

Where the source's code departs from what it evidently intends (see
Findings), the model keeps both versions. The as-written one is a
function with lemmas that show the difference. The corrected one is what
the client and the envelope form run.

The composers, the envelope form and the compose window are classes as
well, with the same split between state-changing methods and
specification functions.

Outside the model's reach are:
- the socket, the TLS handshake and signals;
- the address renderings (`MailAddress` as header, as SMTP mailbox, its host);
- date formatting, UUIDs, the version string and the platform string;
- the user's dialogs.

These enter as plain data or as parameters: strings held in the
`Addresses` datatypes, a `parse` function for `fromPrettyString`, and the
dialog's answer and chosen path as method parameters.

## Model

| member | source | states |
|---|---|---|
| Commands.Command.constructor | src/MSA/SMTPClient/Command.h:40 | a new command has no parts and starts at part 0 |
| Commands.Command.Named | src/MSA/SMTPClient/Command.h:41 | a named command has the name as its only atom part and starts at part 0 |
| Commands.Command.AppendPart | src/MSA/SMTPClient/Command.h:38 | streaming a part appends exactly that part and returns the same command; index and tag unchanged |
| Commands.Command.Append | src/MSA/SMTPClient/Command.h:39 | streaming bytes appends one atom holding them; index and tag unchanged |
| Commands.Command.AddTag | src/MSA/SMTPClient/Command.h:42 | sets the tag and nothing else |
| Commands.WriteCommand | src/MSA/SMTPClient/Command.cpp:8-27 | the text-stream rendering is the parts joined by single spaces and ended by one newline |
| Commands.RenderingRoundTrip | src/MSA/SMTPClient/Command.cpp:8-27 | when no part holds a space or newline, the rendering ends in its only newline and splitting the rest at spaces gives back the parts |
| SmtpClient.WriteParts | src/MSA/SMTPClient/SMTPClient.cpp:292-310 | the bytes built from the current part on are the parts joined by spaces followed by CRLF |
| SmtpClient.LineIsRendering | src/MSA/SMTPClient/SMTPClient.cpp:292-310 | for a command at part 0, the bytes written are the stream rendering with CRLF in place of the newline |
| SmtpClient.LineOfAtoms | src/MSA/SMTPClient/SMTPClient.cpp:292-310 | a command built from atoms is written as those texts joined by spaces and CRLF |
| SmtpClient.Client.constructor | src/MSA/SMTPClient/SMTPClient.cpp:13-16 | tag 0, disconnected, last command INIT, no capabilities, empty queue, nothing written |
| SmtpClient.Client.DoConnect | src/MSA/SMTPClient/SMTPClient.cpp:19-26 | only the state changes, to connecting |
| SmtpClient.Client.CloseConnection | src/MSA/SMTPClient/SMTPClient.cpp:28-33 | only the state changes, to disconnected |
| SmtpClient.Client.SetAuthParams | src/MSA/SMTPClient/SMTPClient.cpp:35-39 | stores user and password, nothing else changes |
| SmtpClient.Client.SetMailParams | src/MSA/SMTPClient/SMTPClient.cpp:41-55 | sender in angle brackets; every recipient bracketed and appended to those already held; the body stuffed and stored, and the caller's buffer stuffed too |
| SmtpClient.Bracketed | src/MSA/SMTPClient/SMTPClient.cpp:45-47 | one bracketed address per input address, in order |
| SmtpClient.Client.GenerateTag | src/MSA/SMTPClient/SMTPClient.cpp:335-338 | the tag is one more than the last and becomes the last |
| SmtpClient.Client.QueueCommand | src/MSA/SMTPClient/SMTPClient.cpp:340-346 | the command gets the next tag and a copy is appended to the queue |
| SmtpClient.Client.Ehlo | src/MSA/SMTPClient/SMTPClient.cpp:314-317 | queues `EHLO <localname>` with the next tag |
| SmtpClient.Client.Auth | src/MSA/SMTPClient/SMTPClient.cpp:319-322 | queues `AUTH <mechanism>` with the next tag |
| SmtpClient.Client.AuthPlainStageTwo | src/MSA/SMTPClient/SMTPClient.cpp:324-333 | queues one atom: Base64 of NUL, user, NUL, password |
| SmtpClient.TokenDecodes | src/MSA/SMTPClient/SMTPClient.cpp:324-333 | the AUTH PLAIN token decodes back to NUL, user, NUL, password, and holds no line break |
| Base64.DecodeEncode | src/MSA/SMTPClient/SMTPClient.cpp:331 | decoding the Base64 encoding gives the bytes back |
| Base64.EncodeLength | src/MSA/SMTPClient/SMTPClient.cpp:331 | the encoding has 4 symbols for every started group of 3 bytes |
| Base64.EncodeAlphabet | src/MSA/SMTPClient/SMTPClient.cpp:331 | the encoding uses only the 64 symbols and `=` |
| Base64.UnsextetsSextets | src/MSA/SMTPClient/SMTPClient.cpp:331 | regrouping bytes into 6-bit values and back is the identity |
| Base64.SymbolValue | src/MSA/SMTPClient/SMTPClient.cpp:331 | every 6-bit value has a symbol whose value is it |
| Base64.DecodeSymbols | src/MSA/SMTPClient/SMTPClient.cpp:331 | symbols followed by their padding decode to the regrouped bytes |
| SmtpClient.Client.ExecuteCommands | src/MSA/SMTPClient/SMTPClient.cpp:287-312 | writes the head of the queue from its current part and removes it; an empty queue is a failure and changes nothing |
| SmtpClient.Client.ParseCapabilities | src/MSA/SMTPClient/SMTPClient.cpp:348-373 | the flags become those of the corrected capability parse of the line (see Left out); nothing else changes |
| SmtpClient.Client.AddAuthModes | src/MSA/SMTPClient/SMTPClient.cpp:365-371 | the loop over mechanisms adds exactly the PLAIN and LOGIN modes the words name |
| SmtpClient.Decide | src/MSA/SMTPClient/SMTPClient.cpp:119-280 | an unanswered combination fails naming last command and status; an answered one never loses a capability; only the credentials after 334 to AUTH are sent at once, and then the command stays AUTH |
| SmtpClient.Client.React | src/MSA/SMTPClient/SMTPClient.cpp:119-280 | the switch of `nextCommand`: a refused reply changes nothing, otherwise state, flags, queue and immediate send follow the table |
| SmtpClient.Client.NextCommand | src/MSA/SMTPClient/SMTPClient.cpp:119-285 | the switch followed by the send when the command changed, as `Perform` of the table's move |
| SmtpClient.Client.HandleResponse | src/MSA/SMTPClient/SMTPClient.cpp:105-112 | a reply is handled only while connecting, otherwise a failure that changes nothing |
| SmtpClient.Client.SlotReadyRead | src/MSA/SMTPClient/SMTPClient.cpp:57-65 | every available line is parsed and handled in order, stopping at the first failure |
| SmtpClient.RespondAllFirst | src/MSA/SMTPClient/SMTPClient.cpp:57-65 | handling lines is handling the first and, when it passes, the rest |
| SmtpClient.RefusedReplyChangesNothing | src/MSA/SMTPClient/SMTPClient.cpp:105-112 | a reply outside connecting or outside the table leaves the session as it was and names the reason |
| SmtpClient.GreetingSendsEhlo | src/MSA/SMTPClient/SMTPClient.cpp:124-134 | the 220 greeting makes the client ready and writes `EHLO localhost` with the next tag |
| SmtpClient.GreetingEndsDialogue | src/MSA/SMTPClient/SMTPClient.cpp:105-134 | after the greeting sets READY, the reply to EHLO is refused |
| SmtpClient.EhloAuthPlain | src/MSA/SMTPClient/SMTPClient.cpp:144-157 | a final 250 EHLO line after which the corrected parse has AUTH and PLAIN writes `AUTH PLAIN` and moves to AUTH |
| SmtpClient.AuthLineOffersPlain | src/MSA/SMTPClient/SMTPClient.cpp:363-371 | an `AUTH` line listing PLAIN announces both AUTH and PLAIN |
| SmtpClient.AuthChallengeSendsToken | src/MSA/SMTPClient/SMTPClient.cpp:172-177 | the 334 challenge writes the credentials token at once and stays at AUTH |
| SmtpClient.MailAcceptedFindsEmptyQueue | src/MSA/SMTPClient/SMTPClient.cpp:197-203 | 250 to MAIL moves to RCPT, and the send that follows finds nothing queued |
| SmtpClient.DataAcceptedMovesToQuit | src/MSA/SMTPClient/SMTPClient.cpp:244-248 | 250 to DATA moves to QUIT, and the change of command sends the head of the queue |
| SmtpClient.EhloRefusedFallsBackToHelo | src/MSA/SMTPClient/SMTPClient.cpp:158-162 | 550 or 502 to EHLO moves to HELO, and the change of command sends the head of the queue |
| SmtpClient.WritesOnlyOnSendOrChange | src/MSA/SMTPClient/SMTPClient.cpp:119-289 | a handled reply writes a line exactly when its move sends at once or changes the command and the send finds a command; never more than one line; a refused reply writes nothing |
| SmtpClient.EhloAuthPlainCarriageReturn | src/MSA/SMTPClient/SMTPClient.cpp:144-157 | on the final line `250 AUTH PLAIN` with its CR and PLAIN not announced before, the source's parse leads to AUTH with nothing queued and an empty-queue failure, while the corrected parse writes `AUTH PLAIN` |
| SmtpClient.RcptWaitsForRecipients | src/MSA/SMTPClient/SMTPClient.cpp:218-243 | 250 or 251 to RCPT changes nothing while recipients remain, otherwise moves to DATA and sends |
| SmtpClient.PerformQueuedThenChange | src/MSA/SMTPClient/SMTPClient.cpp:281-284 | a move that queues a command and changes the command writes that command exactly once |
| SmtpClient.PerformQueuedNow | src/MSA/SMTPClient/SMTPClient.cpp:172-177 | a move that queues a command and sends it at once writes it exactly once |
| SmtpClient.RespondKeepsTags | src/MSA/SMTPClient/SMTPClient.cpp:335-346 | handling a reply keeps the queued tags strictly ascending and below the last tag |
| SmtpClient.RespondAllKeepsTags | src/MSA/SMTPClient/SMTPClient.cpp:57-65 | so does any run of reply lines |
| SmtpClient.EnqueueKeepsTags | src/MSA/SMTPClient/SMTPClient.cpp:340-346 | queueing keeps tags ascending |
| SmtpClient.ExecuteKeepsTags | src/MSA/SMTPClient/SMTPClient.cpp:287-312 | sending keeps tags ascending |
| SmtpClient.PrepareKeepsTags | src/MSA/SMTPClient/SMTPClient.cpp:119-280 | the switch keeps tags ascending |
| SmtpClient.PerformKeepsTags | src/MSA/SMTPClient/SMTPClient.cpp:119-285 | the whole reaction keeps tags ascending |
| SmtpClient.RespondGrows | src/MSA/SMTPClient/SMTPClient.cpp:105-285 | one reply never loses a capability or a written line, and writes at most two lines |
| SmtpClient.PerformGrows | src/MSA/SMTPClient/SMTPClient.cpp:119-285 | a move sets the flags it carries and writes at most two lines |
| SmtpClient.RespondAllGrows | src/MSA/SMTPClient/SMTPClient.cpp:57-65 | a run of replies only adds capabilities and written lines |
| SmtpClient.Atoms | src/MSA/SMTPClient/SMTPClient.cpp:314-333 | one atom per text, in order |
| Reply.ParseLine | src/MSA/SMTPClient/SMTPClient.cpp:67-103 | a line parses exactly when it is digits, `-` or space, and text ending in newline; status is the leading number, multiline is the `-`, enhanced code and text as `AfterStatus` |
| Reply.AfterStatusMeans | src/MSA/SMTPClient/SMTPClient.cpp:74-95 | the optional group is taken exactly when it can match, with the regex's backtracking choice of runs; otherwise the text is the whole rest |
| Reply.FirstRunMeans | src/MSA/SMTPClient/SMTPClient.cpp:74-75 | the first digit run is the longest that lets the group match |
| Reply.SecondRunMeans | src/MSA/SMTPClient/SMTPClient.cpp:74-75 | the second digit run is the longest that lets the group match |
| Reply.TakenIsLongest | src/MSA/SMTPClient/SMTPClient.cpp:74-75 | when the maximal runs fit, they are the only choice taken |
| Reply.LongestRunsTaken | src/MSA/SMTPClient/SMTPClient.cpp:83-95 | when the maximal runs fit, the group is taken with them |
| Reply.RunsTaken | src/MSA/SMTPClient/SMTPClient.cpp:83-95 | three digit runs separated by non-digits and a space give the code and the rest as text |
| Reply.CodeTakenExactly | src/MSA/SMTPClient/SMTPClient.cpp:83-95 | `x.y.z text` gives the code (x, y, z) and the text |
| Reply.EnhancedCodeCaptured | src/MSA/SMTPClient/SMTPClient.cpp:88-95 | a final line with an enhanced code yields that code and the text after it |
| Reply.LastLineIsNotMultiline | src/MSA/SMTPClient/SMTPClient.cpp:75-100 | `NNN text` parses as a final line with status NNN |
| Reply.ContinuationIsMultiline | src/MSA/SMTPClient/SMTPClient.cpp:74-100 | `NNN-text` parses as a continuation line with status NNN |
| Reply.MalformedLines | src/MSA/SMTPClient/SMTPClient.cpp:96-98 | a line without leading digit or final newline is an error |
| Reply.CarriageReturnKept | src/MSA/SMTPClient/SMTPClient.cpp:74-90 | a CRLF continuation line whose text does not start with a digit has exactly that text plus the carriage return |
| Reply.CarriageReturnEndsText | src/MSA/SMTPClient/SMTPClient.cpp:74-90 | every well-formed line ending in CRLF, with `-` or space, with or without an enhanced code, parses to a non-empty text ending in the carriage return |
| Reply.StatusThenRest | src/MSA/SMTPClient/SMTPClient.cpp:74-90 | a status, `-` or space, and a rest ending in a newline parse to that status, the multiline flag of the separator and what the rest gives |
| Reply.TextEndsInCarriageReturn | src/MSA/SMTPClient/SMTPClient.cpp:74-75 | the enhanced-code group never takes the carriage return before the final newline, so the captured text ends with it |
| Reply.CodeParts | src/MSA/SMTPClient/SMTPClient.cpp:84-86 | the code's parts are the three digit runs read as numbers |
| Reply.ThirdLength | src/MSA/SMTPClient/SMTPClient.cpp:74-75 | the third run is digits followed by a space |
| Reply.Covered | src/MSA/SMTPClient/SMTPClient.cpp:74-75 | the group ends with its space |
| Text.DigitRun | src/MSA/SMTPClient/SMTPClient.cpp:74-75 | the longest prefix of digits (`\d+` is greedy) |
| Capabilities.ParseCapabilities | src/MSA/SMTPClient/SMTPClient.cpp:348-373 | the corrected parse of one line never removes a flag |
| Capabilities.ParseCapabilitiesAsWritten | src/MSA/SMTPClient/SMTPClient.cpp:348-373 | the parse as written never removes a flag |
| Capabilities.Classify | src/MSA/SMTPClient/SMTPClient.cpp:350-372 | an AUTH announcement is a line starting with `auth ` in any case, and its modes are those its words name |
| Capabilities.Apply | src/MSA/SMTPClient/SMTPClient.cpp:350-372 | one line adds at most one extension and adds modes only with AUTH |
| Capabilities.AddsAnnounced | src/MSA/SMTPClient/SMTPClient.cpp:348-373 | parsing a line adds what the line announces |
| Capabilities.OrderIrrelevant | src/MSA/SMTPClient/SMTPClient.cpp:348-373 | the order of two lines does not matter |
| Capabilities.Idempotent | src/MSA/SMTPClient/SMTPClient.cpp:348-373 | parsing the same line twice is parsing it once |
| Capabilities.ParseAllUnion | src/MSA/SMTPClient/SMTPClient.cpp:146-147 | the flags after many lines are the old flags plus what the lines announce |
| Capabilities.UnknownKeyword | src/MSA/SMTPClient/SMTPClient.cpp:350-372 | a line with no known keyword changes nothing |
| Capabilities.AuthLine | src/MSA/SMTPClient/SMTPClient.cpp:363-371 | `AUTH m` adds AUTH and exactly the modes named in m |
| Capabilities.AuthModesInMeans | src/MSA/SMTPClient/SMTPClient.cpp:366-371 | a mode is in the set exactly when some word names it, in any letter case |
| Capabilities.AuthModesAppend | src/MSA/SMTPClient/SMTPClient.cpp:366-371 | the modes of two word lists are the union of their modes |
| Capabilities.KeywordLine | src/MSA/SMTPClient/SMTPClient.cpp:350-359 | a keyword line, in any case, adds exactly its extension |
| Capabilities.SizePrefix | src/MSA/SMTPClient/SMTPClient.cpp:360-362 | a line whose compared text starts with `size` announces SIZE |
| Capabilities.SizeLine | src/MSA/SMTPClient/SMTPClient.cpp:360-362 | corrected: `SIZE n` adds SIZE |
| Capabilities.SizeLineAsWritten | src/MSA/SMTPClient/SMTPClient.cpp:360-362 | as written: `SIZE n` adds nothing |
| Capabilities.KeywordLineAsWritten | src/MSA/SMTPClient/SMTPClient.cpp:350-351 | as written: `PIPELINING` followed by CR adds nothing; corrected, it adds PIPELINING |
| Capabilities.AuthLineCarriageReturn | src/MSA/SMTPClient/SMTPClient.cpp:363-371 | as written: the last mechanism of a CRLF AUTH line is lost |
| Capabilities.AuthLineCarriageReturnCorrected | src/MSA/SMTPClient/SMTPClient.cpp:363-371 | corrected: every mechanism of a CRLF AUTH line counts |
| Capabilities.AddsAnnouncedAsWritten | src/MSA/SMTPClient/SMTPClient.cpp:348-373 | the source's parse, too, adds what the line announces whatever came before |
| Capabilities.OrderIrrelevantAsWritten | src/MSA/SMTPClient/SMTPClient.cpp:348-373 | with the source's parse the order of two lines does not matter |
| Capabilities.IdempotentAsWritten | src/MSA/SMTPClient/SMTPClient.cpp:348-373 | with the source's parse a line read twice is read once |
| Capabilities.AsWrittenAgrees | src/MSA/SMTPClient/SMTPClient.cpp:348-373 | on a line without CR whose "size" prefix, if any, is lower-case, the source's parse equals the corrected one, so the corrected parse's lemmas hold of the source's there |
| Capabilities.AuthPlainCarriageReturnAsWritten | src/MSA/SMTPClient/SMTPClient.cpp:363-371 | as written: `AUTH PLAIN` with its CR adds AUTH and no mechanism |
| Capabilities.AuthPlainCarriageReturnCorrected | src/MSA/SMTPClient/SMTPClient.cpp:363-371 | corrected: the same line adds AUTH and PLAIN |
| Capabilities.AuthLineExample | src/MSA/SMTPClient/SMTPClient.cpp:363-371 | `AUTH PLAIN LOGIN` with CR loses LOGIN and keeps PLAIN |
| Text.JoinSplit | src/MSA/SMTPClient/SMTPClient.cpp:365 | joining the split parts with the separator gives the text back |
| Text.SplitJoin | src/MSA/SMTPClient/SMTPClient.cpp:365 | splitting a join of separator-free parts gives the parts back |
| DotStuffing.UnstuffStuff | src/MSA/SMTPClient/SMTPClient.cpp:49-52 | the receiver's unstuffing recovers the body exactly |
| DotStuffing.HalveDoubleInverse | src/MSA/SMTPClient/SMTPClient.cpp:52 | halving undoes the doubling of periods after newlines |
| DotStuffing.NoLineIsALoneDot | src/MSA/SMTPClient/SMTPClient.cpp:49-52 | in the stuffed body every period that starts a line is followed by another |
| DotStuffing.DoubledLines | src/MSA/SMTPClient/SMTPClient.cpp:52 | after doubling, every period that starts a later line is doubled |
| DotStuffing.NothingToStuff | src/MSA/SMTPClient/SMTPClient.cpp:49-52 | a body with no line starting with a period is left unchanged |
| DotStuffing.NoDoubling | src/MSA/SMTPClient/SMTPClient.cpp:52 | no period after a newline means nothing doubled |
| DotStuffing.DoubleDotsAfterNewline | src/MSA/SMTPClient/SMTPClient.cpp:52 | the replacement keeps the first character and the empty text |
| Smtp.Driver.constructor | src/MSA/SMTP.cpp:28-45 | settings stored, not failed, not waiting, mode invalid, nothing emitted, a fresh client |
| Smtp.Driver.SetPassword | src/MSA/SMTP.cpp:62-67 | stores the password and, only when waiting, continues the send |
| Smtp.Driver.SendMail | src/MSA/SMTP.cpp:69-84 | DATA mode; progress signals; sends now unless auth needs a password, in which case it asks for one |
| Smtp.Driver.SendBurl | src/MSA/SMTP.cpp:127-142 | BURL mode with the URL as data; the same password logic |
| Smtp.Driver.SendContinueGotPassword | src/MSA/SMTP.cpp:86-120 | hands credentials and, in DATA mode, mail parameters to the client, connects, fails an invalid mode, reports STARTTLS as unsupported, then closes the connection |
| Smtp.Driver.SupportsBurl | src/MSA/SMTP.cpp:122-125 | BURL is always reported as supported |
| Smtp.HandOverData | src/MSA/SMTP.cpp:95-98 | in DATA mode the client gets the bracketed sender, the bracketed recipients appended, and a body that unstuffs to the data |
| Smtp.HandOverCredentials | src/MSA/SMTP.cpp:90-106 | credentials are handed over exactly when auth is on; outside DATA mode the mail parameters are untouched |
| Outgoing.OutgoingMessage.constructor | src/Composer/OutgoingMessage.cpp:28-62 | empty sender, no recipients, no timestamp |
| Outgoing.OutgoingMessage.SetFrom | src/Composer/OutgoingMessage.cpp:28-31 | sets the sender only |
| Outgoing.OutgoingMessage.SetRecipients | src/Composer/OutgoingMessage.cpp:33-36 | sets the recipients only |
| Outgoing.OutgoingMessage.SetTimestamp | src/Composer/OutgoingMessage.cpp:38-41 | sets the timestamp only |
| Outgoing.OutgoingMessage.Timestamp | src/Composer/OutgoingMessage.cpp:43-46 | returns the timestamp |
| Outgoing.OutgoingMessage.RawFromAddress | src/Composer/OutgoingMessage.cpp:48-51 | the sender's SMTP mailbox |
| Outgoing.OutgoingMessage.RawRecipientAddresses | src/Composer/OutgoingMessage.cpp:53-62 | one SMTP mailbox per recipient, in order, Bcc included |
| Outgoing.MailboxesAt | src/Composer/OutgoingMessage.cpp:53-62 | the envelope list has one entry per recipient, its mailbox |
| Outgoing.BccInEnvelopeOnly | src/Composer/OutgoingMessage.cpp:53-62 | a Bcc recipient is in the envelope but does not change the header block |
| ResentHeaders.ProcessListOfRecipientsIntoHeader | src/Composer/RedirectMessageComposer.cpp:89-98 | appends nothing for no address, else the prefix, the addresses separated by comma and folded line, and CRLF |
| ResentHeaders.HeaderFolded | src/Composer/RedirectMessageComposer.cpp:89-98 | the header ends in CRLF and every line break inside it is followed by a space |
| ResentHeaders.JoinFolded | src/Composer/RedirectMessageComposer.cpp:94 | joining with the folding separator breaks lines only before a space |
| ResentHeaders.HeadersAppend | src/Composer/RedirectMessageComposer.cpp:107-125 | grouping recipients by kind distributes over concatenation |
| ResentHeaders.WriteResentFields | src/Composer/RedirectMessageComposer.cpp:100-140 | the loop writes the Resent block, and an unexpected recipient kind is a failure after the From line |
| ResentHeaders.BccNotWritten | src/Composer/RedirectMessageComposer.cpp:107-130 | a Bcc recipient anywhere leaves the block unchanged |
| ResentHeaders.GenerateMessageId | src/Composer/RedirectMessageComposer.cpp:142-155 | empty exactly when the sender has no host; otherwise the UUID without braces, `@`, the host |
| ResentHeaders.WithoutBracesKeeps | src/Composer/RedirectMessageComposer.cpp:148-154 | removing braces keeps a text that has none |
| ResentHeaders.WithoutBraces | src/Composer/RedirectMessageComposer.cpp:148-154 | the result holds no brace and is no longer than the input |
| ResentHeaders.RedirectedMeans | src/Composer/RedirectMessageComposer.cpp:55-65 | success exactly when every kind is expected and the original is there; the original follows the block byte for byte |
| ResentHeaders.ErrorMessage | src/Composer/RedirectMessageComposer.cpp:55-72 | the two error texts, and none for the assertion |
| RedirectComposer.RedirectMessageComposer.constructor | src/Composer/RedirectMessageComposer.cpp:32-35 | no preload, nothing available, no combiner, a fresh envelope |
| RedirectComposer.RedirectMessageComposer.PrepareMessage | src/Composer/RedirectMessageComposer.cpp:37-43 | a combiner exists; available exactly when already loaded |
| RedirectComposer.RedirectMessageComposer.SlotMessageCombinerCompleted | src/Composer/RedirectMessageComposer.cpp:45-48 | the message becomes available |
| RedirectComposer.RedirectMessageComposer.SetPreloadEnabled | src/Composer/RedirectMessageComposer.cpp:74-77 | sets the preload flag only |
| RedirectComposer.RedirectMessageComposer.IsReadyForSerialization | src/Composer/RedirectMessageComposer.cpp:50-53 | ready exactly when not preloading or available |
| RedirectComposer.RedirectMessageComposer.AsRawMessage | src/Composer/RedirectMessageComposer.cpp:55-65 | the redirect with `Resent-Message-ID:` and an id from the envelope's sender |
| RedirectComposer.RedirectMessageComposer.AsCatenateData | src/Composer/RedirectMessageComposer.cpp:67-72 | always the CATENATE failure, target untouched |
| RedirectComposer.ReadyMeansAvailable | src/Composer/RedirectMessageComposer.cpp:50-65 | when preloading, ready means the raw message succeeds; without preload it may be ready and still fail |
| MessageRedirecting.MessageRedirect.constructor | src/Composer/MessageRedirect.cpp:10-16 | available as loaded, empty data |
| MessageRedirecting.MessageRedirect.SlotMessageAvailable | src/Composer/MessageRedirect.cpp:23-26 | the message becomes available, data unchanged |
| MessageRedirecting.MessageRedirect.SetData | src/Composer/MessageRedirect.cpp:28-36 | stores sender, recipients, timestamp, and the id from the sender and UUID |
| MessageRedirecting.MessageRedirect.AsRawMessage | src/Composer/MessageRedirect.cpp:38-50 | the redirect with a `Message-ID:` header |
| MessageRedirecting.IdFixedBySetData | src/Composer/MessageRedirect.cpp:28-50 | no host means an empty id; success exactly when the kinds are expected and the message is available |
| EnvelopeForm.EnvelopeFormWidget.constructor | src/Gui/EnvelopeFormWidget.cpp:25-47 | no rows, slider hidden, four visible rows |
| EnvelopeForm.EnvelopeFormWidget.AddRecipient | src/Gui/EnvelopeFormWidget.cpp:66-105 | inserts the row at the position; slider consistent with the count |
| EnvelopeForm.EnvelopeFormWidget.RemoveRecipient | src/Gui/EnvelopeFormWidget.cpp:216-249 | removes exactly that row; slider consistent |
| EnvelopeForm.SliderMaximum | src/Gui/EnvelopeFormWidget.cpp:85-88 | the slider's maximum is the rows beyond the visible ones, or 0 |
| EnvelopeForm.NextRowKind | src/Gui/EnvelopeFormWidget.cpp:396-417 | To is followed by Cc, Cc and Bcc by themselves, any other kind is an error |
| EnvelopeForm.EnvelopeFormWidget.UpdateRecipientList | src/Gui/EnvelopeFormWidget.cpp:462-481 | corrected sweep: every empty row but the first removed, and one empty row appended when none was left |
| EnvelopeForm.UpdatedMeans | src/Gui/EnvelopeFormWidget.cpp:462-481 | after the update exactly one row is empty and the filled rows are unchanged; failure only for an unexpected last kind |
| EnvelopeForm.KeepFirstEmptyMeans | src/Gui/EnvelopeFormWidget.cpp:465-473 | the corrected sweep keeps the filled rows and at most one empty row |
| EnvelopeForm.SweepAsWrittenKeepsTwoEmpty | src/Gui/EnvelopeFormWidget.cpp:465-473 | as written, three empty rows keep two |
| EnvelopeForm.SweepAsWrittenMeans | src/Gui/EnvelopeFormWidget.cpp:465-473 | the source's sweep keeps every filled row in order, never adds an empty row, and keeps one when there was one |
| EnvelopeForm.FirstEmptyKeptAsWritten | src/Gui/EnvelopeFormWidget.cpp:465-473 | in the source's sweep the first empty row and everything before it stay |
| EnvelopeForm.UpdatedAsWrittenMeans | src/Gui/EnvelopeFormWidget.cpp:462-481 | after the source's update at least one row is empty and the filled rows are unchanged; it fails exactly when the corrected update does |
| EnvelopeForm.FirstEmptyKept | src/Gui/EnvelopeFormWidget.cpp:465-473 | the first empty row and everything before it stay |
| EnvelopeForm.NothingToSweep | src/Gui/EnvelopeFormWidget.cpp:465-473 | with no empty row the sweep changes nothing |
| EnvelopeForm.EnvelopeFormWidget.ParseRecipients | src/Gui/EnvelopeFormWidget.cpp:483-503 | appends the parsed recipients of the filled rows, stopping at the first failure |
| EnvelopeForm.ParsedMeans | src/Gui/EnvelopeFormWidget.cpp:483-503 | each recipient is its filled row's kind and parsed address; success exactly when every filled row parses; failure names the first unparsable text |
| EnvelopeForm.ParseErrorMessage | src/Gui/EnvelopeFormWidget.cpp:497-500 | the message quotes the row's text after `Can't parse "` |
| EnvelopeForm.ActualRow | src/Gui/EnvelopeFormWidget.cpp:520-531 | the first layout row that has as many occupied rows before it as the visible index |
| EnvelopeForm.ActualRowInside | src/Gui/EnvelopeFormWidget.cpp:520-531 | a visible row inside the range is found |
| ComposeWindow.ReferencesSizeOf | src/Gui/ComposeWidget.cpp:640-643 | the loop computes the header size: prefix plus each id and its separator |
| ComposeWindow.TrimReferences | src/Gui/ComposeWidget.cpp:638-648 | the first id is kept with the latest ones; the header fits 998 characters or three ids remain; it stops at the first fit |
| ComposeWindow.TakeSecond | src/Gui/ComposeWidget.cpp:645-647 | dropping the second id shrinks the size by its length and separator |
| ComposeWindow.KeptMeans | src/Gui/ComposeWidget.cpp:645-647 | the kept ids are the first one and the last ones, at least three of them |
| ComposeWindow.ReferencesSizeSplit | src/Gui/ComposeWidget.cpp:640-643 | the size of two lists adds up, less one prefix |
| ComposeWindow.UnbracketedMeans | src/Gui/ComposeWidget.cpp:296-306 | brackets are removed exactly when the id is enclosed in them, and adding them back gives the id |
| ComposeWindow.StripAngleBrackets | src/Gui/ComposeWidget.cpp:296-306 | every id is stripped in place, in order |
| ComposeWindow.RowFieldsAt | src/Gui/ComposeWidget.cpp:820-824 | every row is written as its kind then its text |
| ComposeWindow.ReadRows | src/Gui/ComposeWidget.cpp:868-873 | reads the counted rows, keeping the non-empty ones |
| ComposeWindow.ReadThreading | src/Gui/ComposeWidget.cpp:874-918 | reads the time stamp and threading lists from version 2 on and the reply flag from version 3 on, and ends where the subject is |
| ComposeWindow.ReadDraft | src/Gui/ComposeWidget.cpp:855-922 | reads the explicit flag, the draft and, from version 2 on, the time stamp, by version |
| ComposeWindow.DraftRoundTrip | src/Gui/ComposeWidget.cpp:811-925 | loading what was saved into a window with any rows, such as a new window's blank To row, gives the draft and its time stamp back, with its rows with text after the window's rows |
| ComposeWindow.VersionOneDraft | src/Gui/ComposeWidget.cpp:874-922 | a version 1 draft, loaded into a window with any rows, appends its rows with text and leaves the time stamp and reply threading as they were, and still reads subject and body |
| ComposeWindow.SavedLayout | src/Gui/ComposeWidget.cpp:811-836 | the saved fields hold version, flag, sender, count, rows, then the time stamp and the trailing fields where a reader looks for them |
| ComposeWindow.LoadedRowsOfSaved | src/Gui/ComposeWidget.cpp:868-873 | reading saved rows gives the non-empty ones |
| ComposeWindow.FilledSnoc | src/Gui/ComposeWidget.cpp:868-873 | keeping the non-empty rows distributes over appending a row |
| ComposeWindow.NeedsSaveMeans | src/Gui/ComposeWidget.cpp:467-468 | saving is asked for only for an unsent, edited message, and then when it is not an explicit draft or changed since |
| ComposeWindow.BuildCheckOrder | src/Gui/ComposeWidget.cpp:524-543 | the failures come in the source's order: parse error, no recipients, invalid sender, no subject |
| ComposeWindow.ComposeWidget.constructor | src/Gui/ComposeWidget.cpp:84-222 | no flags set, nothing saved, no save required, and one blank To recipient row |
| ComposeWindow.ComposeWidget.SaveDraft | src/Gui/ComposeWidget.cpp:811-836 | writes the draft's fields, with the outgoing message's time stamp, to the path; nothing else changes |
| ComposeWindow.ComposeWidget.LoadDraft | src/Gui/ComposeWidget.cpp:844-925 | drops the old autosave when the path differs, loads the draft, sets the outgoing message's time stamp from a version 2 or later draft, clears the updated flag |
| ComposeWindow.ComposeWidget.SetMessageUpdated | src/Gui/ComposeWidget.cpp:935-938 | updated and ever edited; a save is required unless sent |
| ComposeWindow.ComposeWidget.AutoSaveDraft | src/Gui/ComposeWidget.cpp:927-933 | saves to the autosave path only when updated, then clears the flag |
| ComposeWindow.ComposeWidget.Sent | src/Gui/ComposeWidget.cpp:700-706 | marks sent; no save required afterwards |
| ComposeWindow.ComposeWidget.CloseEvent | src/Gui/ComposeWidget.cpp:465-516 | close without asking when no save is needed; Cancel keeps the window; Discard or Save then remove the autosave unless it is the explicit draft |
| ComposeWindow.ComposeWidget.BuildMessageData | src/Gui/ComposeWidget.cpp:520-572 | fails in the source's order, otherwise stores recipients, sender and timestamp in the outgoing message |

## Left out

- Sockets, TLS, signals and `qDebug` output are left out. Each reply line is given to `SlotReadyRead` as a string, and the written lines are collected in the session.
- SmtpClient.Client.SlotReadyRead: it does not model `canReadLine` buffering; the lines are given whole.
- The `Q_ASSERT` branches become explicit failures. This includes a refused reply, an empty queue, an unexpected recipient kind and the AUTH 235 reply, which asserts before it moves on to MAIL. A debug build would abort at these points.
- `QString::toLower` and `QString::fromUtf8` act on ASCII only. User and password are given as bytes, already UTF-8.
- Integer conversion follows `QString::toInt` on digit strings, with 0 above `INT_MAX`. Widths beyond that are not modelled.
- `MailAddress` renderings, `dateTimeToRfc2822`, `QUuid` and the version and platform strings are given strings. `fromPrettyString` is the `parse` parameter.
- `calculateMaxVisibleRecipients`, geometry, focus and the widget tree are left out. Only the slider's maximum and the rows are modelled.
- The `QDataStream` encoding is modelled as a sequence of typed fields. The numeric codes of the recipient kinds are not modelled: a kind is stored as itself.
- ComposeWindow.ReadDraft: rows read from a draft are appended after the rows already present. The source inserts each at its position in the draft, so a new window's blank To row can end up after them rather than before them. The envelope's insertion positions are not modelled.
- File open failures and permissions are left out. The file dialogs and the message box are the `answer` and `chosenPath` parameters, so the file name derived from the subject is not modelled.
- `MessageComposer` readiness and the reply-mode UI actions are left out. The rest of `setResponseData` is left out too, except the stripping of angle brackets.
- Smtp.Driver.SendContinueGotPassword: the BURL branch is a TODO in the source and sends nothing. STARTTLS is reported as unsupported.
- ComposeWindow.ComposeWidget.BuildMessageData: the outgoing message holds only sender, recipients and timestamp. The subject, body, organization, In-Reply-To and References handed to the composer are not modelled, and success does not ask the composer whether it is ready.
- Smtp.Driver.SupportsBurl: its contract repeats the constant the source returns.
- SmtpClient.Client.ParseCapabilities: the client runs the corrected parse, which drops the line's CR and finds "size" in any letter case. The source parses the raw text (see Findings). On a line without CR and without an upper-case SIZE the two agree (Capabilities.AsWrittenAgrees). On other lines the client does not behave as the program does.
- SmtpClient.Decide: its EHLO branch uses the corrected parse, so on a final EHLO line with CR its move differs from the source's. SmtpClient.EhloAuthPlainCarriageReturn shows the source's move on `AUTH PLAIN` with CR.
- SmtpClient.Client.React: it carries out the move of the corrected parse, as Decide does.
- SmtpClient.Client.NextCommand: it carries out the move of the corrected parse, as Decide does.
- SmtpClient.EhloAuthPlain: its premise is about the corrected parse; with the source's parse a final `AUTH PLAIN` line with CR queues nothing (SmtpClient.EhloAuthPlainCarriageReturn).
- EnvelopeForm.EnvelopeFormWidget.UpdateRecipientList: it runs the corrected sweep. The source's sweep can leave several empty rows; what it keeps is proved by SweepAsWrittenMeans, FirstEmptyKeptAsWritten and UpdatedAsWrittenMeans.

## Findings

| source | as written | input that shows it | evidently intended | confidence | as-written member | corrected member |
|---|---|---|---|---|---|---|
| src/MSA/SMTPClient/SMTPClient.cpp:74-75 | the reply text keeps the line's carriage return, and `parseCapabilities` compares it as it is | the EHLO line `250-PIPELINING` ending in CRLF | keywords are recognised without the line ending | not executed | Capabilities.KeywordLineAsWritten | Capabilities.KeywordLine |
| src/MSA/SMTPClient/SMTPClient.cpp:363-371 | the last mechanism of an AUTH line ends in a carriage return and matches no mode | `250 AUTH PLAIN LOGIN` ending in CRLF: LOGIN is lost | every listed mechanism counts | not executed | Capabilities.AuthLineCarriageReturn | Capabilities.AuthLineCarriageReturnCorrected |
| src/MSA/SMTPClient/SMTPClient.cpp:360 | `startsWith("size")` is case-sensitive, unlike every other keyword test | `250-SIZE 35882577` | SIZE is recognised in any letter case | not executed | Capabilities.SizeLineAsWritten | Capabilities.SizeLine |
| src/Gui/EnvelopeFormWidget.cpp:465-473 | after removing row `i`, the loop still advances, so the row that slid into place `i` is skipped | three empty recipient rows | exactly one empty row remains | not executed | EnvelopeForm.SweepAsWrittenKeepsTwoEmpty | EnvelopeForm.KeepFirstEmptyMeans |
