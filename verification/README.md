# Verification of yarilo-loadtest

yarilo-loadtest puts mail load on a server over LMTP, POP3 and IMAP. Its output is only worth
reading if it stays in step with the server, sends what it means to send, and counts what
happened correctly. This project states those three things as theorems about a model of its
code, and proves them with Dafny 4.11. `dafny verify dfyconfig.toml` checks everything.

Octets are characters below 256, so that protocol text stays readable; a connection is the
sequence of octets not yet read, and every framing theorem leaves an arbitrary rest unread.
What the code mutates step by step is a class or a loop proved against a function; what is
said about that function is said for all inputs, all runs, or all interleavings.

| file | what it models |
|---|---|
| `Octets.dfy` | lines, trimming, blanks, decimals, the buffered reader |
| `Sorting.dfy`, `Counting.dfy` | the order of names; counting over windows of a counter |
| `ImapCommands.dfy` | the weighted profile and the choice of a command |
| `ImapView.dfy` | what a client believes of its mailbox, and the alarm |
| `ImapDriver.dfy` | one client's whole life: its choices and everything it sends |
| `ImapSystem.dfy` | any number of clients and a server that tells the truth, step by step |
| `ImapAlarm.dfy` | when exactly the alarm goes off in such runs, and three runs in which it should not |
| `ImapGrowth.dfy`, `ImapExcess.dfy` | how large the mailboxes can get, and a run that gets there |
| `ImapSolo.dfy` | one client alone: how exactly it knows its mailbox, and what never shrinks |
| `ImapWire.dfy` | tags, literals, quoted names, and a connection in step |
| `DotStuffing.dfy` | sending a message so that nothing in it ends the transfer |
| `Lmtp.dfy`, `Pop3.dfy` | one delivery and one retrieval session, command by command |
| `Mbox.dfy` | loading a file of messages so that replay is exact |
| `Generator.dfy` | the size and the lines of generated messages |
| `MailReader.dfy` | what a program that only knows mail finds in them |
| `RunDriver.dfy` | the workers of a run, interleaved in any order, what they report, and the exit status |
| `Stats.dfy`, `Live.dfy` | what was observed, its summary, and the table printed meanwhile |
| `Recipients.dfy` | expanding "u51@domain:100" |

## What is assumed of an IMAP server

The server of `ImapSystem` is everything that tells the truth; what it may not do are the
guards of `ImapSystem.Possible`. They are taken from RFC 3501, with one reading of it added:
SELECT reports the true count (section 6.3.1); only messages a session was told of, and
gone, are expunged to it, and only while a command of it is in progress (section 7.4.1); an
APPEND is acknowledged once its message is stored; and an EXISTS covers every message the
session was told of and not since expunged to it, and every append of its own that was
acknowledged and is neither told nor gone. That last reading is this model's: section 7.3.1
says only that EXISTS reports the number of messages in the mailbox. And a command that fails,
or whose connection does, has no effect after its failure: a message stored later than that
would count for nobody. Announcements may come at
any time, between commands too (section 5.3), and inside the reply to an APPEND, where section
6.3.11 says a server SHOULD send EXISTS and `appendMessage` throws it away.

Against every such server, in every run: `AlarmsExactly` says when a client reports a mismatch,
if and only if; `MailboxStaysBounded` bounds every mailbox; `TopsUpToTheTarget` reaches the
target. What needs more than the truth says so as a hypothesis about the run:

- `Candid` (`NoFalseAlarm`, `SoloRun`, `StaysOverfull`): no count is announced inside the reply
  to an APPEND, and no append of the client's own that is gone is passed over unmentioned.
  Neither is a rule of RFC 3501. `UnheardReport` and `PassedOver` are false alarms without them,
  each with a single message.
- `Timely` (`NoFalseAlarm`): no report is unread when the client sends a SELECT. The server
  cannot ensure that; `StaleReport` is a false alarm without it.
- `Modest` (the sharper half of `MailboxStaysBounded`): inside the reply to an APPEND nothing is
  announced but the client's own appends. Without it a client may come to own not 2T+1 but 4T+1
  messages, and no more; `FiveOfItsOwn` is a run in which one does, with T = 1.

## Where code and documentation differ

- A client's view starts afresh at a SELECT (driver.go of imapdrv, lines 245 to 247), but the
  first lines of its reply may be reports of the mailbox it leaves, announced between commands
  and not yet read. They are folded into the new view, and a mailbox that holds fewer messages
  than such a report said is taken for one that lost them (`StaleReport`; exactly when:
  `AlarmsExactly` with `ImapSystem.OpenSetsOff`).
- README.md, line 336, makes the exit status non-zero when any protocol error occurred. It is so
  if and only if some failure was reported while the run's context was live or, with
  `-stop-on-error`, some call's error was recorded (`GateIff`, for every run, however it ends).
  Two kinds of error are missed. A mismatch is not reported: the command was observed as a
  success before the count was looked at (driver.go of imapdrv, lines 303 to 312), so without
  `-stop-on-error` a run in which a client finds that the server lost its mail exits with zero
  (`SilentFailure`). And a server's failure that is observed only after the duration has passed
  is put down to the end of the run (`LateReport`); a run bounded by a duration alone always ends
  that way (`EndsFromOutside`).
- stats.go, lines 63 to 66, has it that a failure caused by the end of the run is never counted
  as the server's. That holds of a dial, which the context cuts off. An established connection
  is cut off by its own deadline, which LMTP sets to the context's (lmtp.go, lines 81 to 82) and
  POP3 to that or so long after dialling, whichever is earlier (pop3.go, lines 169 to 173), and
  nothing orders the two: if the connection's is noticed first, a server that never fails is
  charged with an error (`EarlyClock`).
- README.md, line 350, calls `-timeout` a timeout per command. It is set once for a connection and
  never renewed (client.go of imapdrv, line 53; pop3.go, line 169; lmtp.go, line 84), so that a
  session that lasts longer is cut off in the middle of the run and its failure counted as the
  server's (`OwnDeadline`). An IMAP client's call returns only on a failure or when the context
  has ended (`RunClient`: without an error, the run has ended), so that an IMAP run bounded by
  iterations alone ends through failures only. `ErrorsExactly` and `CleanIff` say how many errors
  a run reports; `ErrorsAreTheServers` is the promise, for runs in which no connection outlives
  its deadline before the context ends.
- The steady state keeps a mailbox between T and 2T (driver.go of imapdrv, lines 207 to 223).
  Upwards that is `TopsUpToTheTarget`. Downwards it only ever sends EXPUNGE, so that the profile
  and with it DELETE is never reached: a mailbox that starts above 2T with nothing marked as
  deleted stays above it for the whole run (`StaysOverfull`).
- The corpus documents its two sizes as bounds on the whole message (corpus.go, lines 20 to 24).
  The smaller one is a bound; the larger bounds only the size that is drawn. `BoundHoldsIff` says
  for every message whether it keeps to the larger one, and `DefaultsOverrun` that with the
  default sizes the largest ordinary ones do not.
- A payload is declared as base64 (corpus.go, lines 130 to 136) and never padded. It decodes if
  and only if the octets left for it are a multiple of four (`AttachedReads`).
- Dots are stuffed after every LF, as section 4.5.2 of RFC 5321 does after every CRLF. For a
  receiver that ends lines only at CRLF the message survives if and only if no dot of it follows
  a bare LF (`StrictTransparentIff`); the framing survives always. Replayed and generated
  messages have no bare LF.
- The mbox loader takes the ">" off every line starting ">From ", also where no writer put it
  there. The round trip holds if and only if no line starts that way (`RoundTripIff`).
- `readUntilTagged` takes whatever follows a literal on its line for a line of its own. The reply
  is framed if and only if that looks like neither the tagged line nor a response nor a go-ahead
  (`FramedIffTailInnocuous`).

## Model

| member | source | states |
|---|---|---|
| `ImapView.View.ApplyUntagged` | internal/imapdrv/session.go:45-66 | the whole new view is the fold of the lines' events over the old one, in order; what that is for the lines servers print is `PrintedLines`, `ImmaterialLines` and `LinesInTurn` |
| `ImapView.View.Report` | internal/imapdrv/session.go:75-83 | a report resets the floor and leaves a mismatch exactly when it is below baseline plus own appends |
| `ImapView.View.Reset` | internal/imapdrv/driver.go:245 | nothing is known of a newly opened mailbox |
| `ImapView.View.CheckMismatch` | internal/imapdrv/session.go:136-140 | the mismatch is handed over and cleared, the counters stay |
| `ImapView.CountIsRead` | internal/imapdrv/session.go:86-96 | a count as a server prints it is read back as that count, with the rest of its line |
| `Octets.AtoiMeans` | internal/imapdrv/session.go:91-94 | numbers read with either sign or none; nothing without digits, or with anything else among them, is one |
| `Octets.DigitsAre` | internal/imapdrv/client.go:83-85 | numbers are printed digit by digit, "0" to "9" |
| `ImapView.PrintedLines` | internal/imapdrv/session.go:51-83 | what "n EXISTS", with anything after it, makes of every counter: count and baseline n, own appends none, a mismatch with these numbers if and only if n is below baseline plus appends; and what "n EXPUNGE" does: one off the count and the baseline, neither below zero, nothing else |
| `ImapView.ImmaterialLines` | internal/imapdrv/session.go:47-50 | a line whose first word is no number, or which neither word follows, leaves the view as it is |
| `ImapView.LinesInTurn` | internal/imapdrv/session.go:45-66 | the lines of a reply are taken in one after the other |
| `ImapView.ReplayIsFloor` | internal/imapdrv/session.go:45-83 | over any history of a selection the counters are the last report less the expunges since, floored at zero, and the appends acknowledged since |
| `ImapView.AlarmIffContradicted` | internal/imapdrv/session.go:45-83 | against any server: after a completed command there is a mismatch if and only if one of its reports was below the floor of everything before it |
| `ImapView.StoringNothingIsCaught` | internal/imapdrv/session.go:68-74 | a server that acknowledges appends and stores nothing is caught at its first report after an acknowledgement |
| `ImapView.NothingStoredIsSeen` | internal/imapdrv/session.go:68-83 | the same of printed lines: "n EXISTS", any expunges and acknowledged appends, and then an EXISTS of no more than is left of n raises the alarm |
| `ImapView.AlarmNames` | internal/imapdrv/session.go:75-79 | a mismatch names the last report that fell short, the mailbox, what was left of the report before it and what the client had added since |
| `ImapDriver.RangeOf` | internal/imapdrv/driver.go:319-330 | the newest twenty messages, or all there are where there are fewer, or the first of an empty mailbox |
| `ImapDriver.RequestsName` | internal/imapdrv/driver.go:252-294 | for every message of the view, FETCH, STORE and DELETE name it if and only if it is one of the newest twenty; STATUS and APPEND name the open mailbox; nothing else names anything |
| `ImapDriver.RotationTakesTurns` | internal/imapdrv/driver.go:236-237 | any as many consecutive counters as there are mailboxes open each as often as it is configured, the first ones in their order |
| `ImapDriver.UsersTakeTurns` | internal/imapdrv/driver.go:168-172 | and so are users shared out to clients |
| `ImapDriver.RequestsFollowTheProfile` | internal/imapdrv/driver.go:198-231 | over any k rounds of consecutive counters the requests sent with a mailbox open, while the steady state leaves the choice to the profile, are of each command exactly k times its configured weight, whatever else the views hold |
| `ImapDriver.EveryShare` | internal/imapdrv/commands.go:30-81 | that, field by field of the profile, for one round |
| `ImapDriver.LoginComesFirst` | internal/imapdrv/driver.go:167-194 | whatever is sent was preceded on its connection by a dial and then a login that succeeded, and by nothing else but requests |
| `ImapDriver.FirstLegalMeans` | internal/imapdrv/driver.go:225-231 | of the choices from the counter on, the first that fits where the client stands, none before it fitting; NOOP only if none of one pass does |
| `ImapDriver.ClosedOnce` | internal/imapdrv/driver.go:134-165 | a legal trace has closed every connection it opened exactly when it ends without one |
| `ImapDriver.LegalThroughout` | internal/imapdrv/session.go:117-133 | if a trace ends legally, every beginning of it was legal |
| `ImapDriver.AppendTargetsTheOpenMailbox` | internal/imapdrv/driver.go:287-294 | every APPEND goes to the mailbox of the latest SELECT, with only that selection's commands between |
| `ImapDriver.Session.Absorb` | internal/imapdrv/driver.go:308-312 | a completed command fails exactly when it is contradicted, naming the report that fell short; the view stays the replay of the selection's history |
| `ImapDriver.Session.Acknowledge` | internal/imapdrv/driver.go:289-294 | an acknowledged append is added to the history, and nothing else is |
| `ImapDriver.Session.Hangup` | internal/imapdrv/driver.go:153-157 | the connection there is is closed once and forgotten |
| `ImapDriver.Driver.Connect` | internal/imapdrv/driver.go:167-194 | exactly one dial and one login as the client's own user, and a close after a failed login |
| `ImapDriver.Driver.DoSelect` | internal/imapdrv/driver.go:236-248 | one SELECT of the rotation's mailbox; its own responses begin the new history and are checked against an empty one |
| `ImapDriver.Driver.Run` | internal/imapdrv/driver.go:252-313 | exactly one request, the alarm if and only if the history contradicts it, an APPEND's responses left out of account, a LOGOUT closing the connection |
| `ImapDriver.Driver.Complete` | internal/imapdrv/driver.go:287-312 | what a completed command does to the session, command by command |
| `ImapDriver.Driver.PickLegal` | internal/imapdrv/driver.go:225-231 | the first legal choice from the counter on, NOOP if there is none within one pass |
| `ImapDriver.Driver.Choose` | internal/imapdrv/driver.go:215-231 | the loop and the two tests before it choose what the steady state and the profile demand, and only what is enabled; how often each command then comes up is `RequestsFollowTheProfile` |
| `ImapDriver.Driver.Step` | internal/imapdrv/driver.go:198-234 | exactly which request is sent next, with which counter, and how many counters it draws; a transport failure exactly when the last thing sent failed, and a mismatch exactly when the last command contradicts the history of its selection |
| `ImapDriver.Driver.StepOrDrop` | internal/imapdrv/driver.go:148-162 | after a failed step nothing is left open |
| `ImapDriver.Driver.RunClient` | internal/imapdrv/driver.go:134-165 | whatever the outside does, everything sent is legal and configured, and every connection has been closed once; a mismatch is returned only of a trace that ends in a contradicted command, and no contradicted command but the last is in any trace, which is returned unless the run has ended; a run that has not ended is not idle |
| `ImapDriver.AlarmFreeMeans` | internal/imapdrv/driver.go:303-312 | what no alarm in a trace means: no beginning of it ends in a command that contradicts its history |
| `ImapSystem.ShortfallIff` | internal/imapdrv/session.go:75-83 | a report is below the client's floor if and only if the expunges it heard since the last one exceed what that one counted and its own acknowledged appends are not covered, or messages it counts on went unheard |
| `ImapSystem.MovedKeeps` | internal/imapdrv/driver.go:236-313 | any step of any client keeps its counters equal to the sizes of the sets of messages the server has told it of, acknowledged to it and expunged to it |
| `ImapSystem.MovedPending` | internal/imapdrv/session.go:68-83 | what a step does to an alarm on its way: set off by the two kinds of report that contradict the view, settled by the end of a command or a SELECT, otherwise kept |
| `ImapSystem.StepKeepsInv` | internal/imapdrv/session.go:45-83 | one step of the whole system keeps every client tracked |
| `ImapSystem.SentIsNextRequest` | internal/imapdrv/driver.go:198-248 | what a client of the system sends is the request of the driver's next step, on the mailbox of its rotation |
| `ImapSystem.FinishedIsAbsorbed` | internal/imapdrv/driver.go:303-312 | what it makes of a completed command is what the driver's session makes of it, for any response lines that say what was announced |
| `ImapAlarm.PendingIsDue` | internal/imapdrv/session.go:45-83 | at any moment of any run the responses on their way to a client contradict its view if and only if an alarm is due to it |
| `ImapAlarm.AlarmsExactly` | internal/imapdrv/driver.go:303-312 | for every run of any number of clients and every truthful server: a client completing a command reports a mismatch if and only if since its last command an EXISTS fell short, or a SELECT found fewer messages than an unread report of the mailbox it left |
| `ImapAlarm.NoFalseAlarm` | internal/imapdrv/session.go:68-83 | for any number of clients, any interleaving and announcements at any time, no client of a candid server reports a mismatch when no report is unread at a SELECT |
| `ImapAlarm.StaleReport` | internal/imapdrv/driver.go:245-247 | a run with a candid server and a false alarm: an unread report of the old mailbox is folded into the view of the new one |
| `ImapAlarm.UnheardReport` | internal/imapdrv/client.go:200-201 | a run with a single message whose only uncandid step announces an append inside its own reply, and a false alarm follows |
| `ImapAlarm.PassedOver` | internal/imapdrv/session.go:75-83 | a run with a single message whose only uncandid step passes over an acknowledged append that is gone, and a false alarm follows |
| `ImapGrowth.TopsUpToTheTarget` | internal/imapdrv/driver.go:210-219 | from any state of any run in which a client is ready and short of its target, as long as its connection stays up its next target - held commands are all APPEND and each one finished adds one to what it holds, whatever everyone else does |
| `ImapGrowth.StepKeepsBound` | internal/imapdrv/driver.go:215-223 | every client accounts for all its own messages in the mailbox it has open, and owns at most 4T+1 anywhere, against any truthful server |
| `ImapGrowth.StepKeepsLean` | internal/imapdrv/driver.go:215-223 | with a modest server it appends only while what it was told of and has acknowledged is at most 2T, and owns at most 2T+1 anywhere |
| `ImapGrowth.RunKeepsBound` | internal/imapdrv/driver.go:215-223 | that in every state of every run, and mail from elsewhere is at most what there was plus what was delivered |
| `ImapGrowth.MailboxStaysBounded` | internal/imapdrv/driver.go:207-223 | in every state of every run a mailbox shared by N clients holds at most its initial size, other deliveries and N times 4T+1; N times 2T+1 when the server is modest |
| `ImapExcess.FiveOfItsOwn` | internal/imapdrv/client.go:200-201 | a run in which 4T+1 is reached, with T = 1 |
| `ImapSolo.SoloKeepsExact` | internal/imapdrv/driver.go:210-216 | with nobody else at the mailboxes, told of and awaiting announcement stay the mailbox |
| `ImapSolo.SoloRun` | internal/imapdrv/driver.go:207-223 | whenever a lone client is ready for its next command, exists plus appended is the true number of messages, and no mailbox outgrows the larger of its initial size and 2T+1 |
| `ImapSolo.StaysOverfull` | internal/imapdrv/driver.go:219-221 | a lone client whose mailboxes all start above 2T with nothing marked in them sends nothing but SELECT and EXPUNGE, so nothing is ever marked, and they never shrink |
| `ImapCommands.Weights` | internal/imapdrv/commands.go:66-81 | exactly the commands with a positive weight, ordered by name |
| `ImapCommands.TotalWeight` | internal/imapdrv/commands.go:89-95 | the sum of the weights |
| `ImapCommands.Pick` | internal/imapdrv/commands.go:100-113 | the command that holds the counter's slot |
| `ImapCommands.SpansInOrder` | internal/imapdrv/commands.go:97-113 | a slot belongs to the command whose weight it falls into when the weights are laid end to end in order |
| `ImapCommands.RenderingIsUnique` | internal/imapdrv/commands.go:66-81 | a profile has one rendering: two runs with it choose alike |
| `ImapCommands.DefaultRenders` | internal/imapdrv/commands.go:53-81 | the default profile's weights, literally, in their order |
| `ImapCommands.PickSpreads` | internal/imapdrv/commands.go:97-113 | any window of k rounds of consecutive counters chooses every command k times its weight |
| `ImapCommands.ProfileIsHonoured` | internal/imapdrv/commands.go:63-113 | over any k rounds a command is chosen k times its configured weight, and never when that weight is zero |
| `ImapCommands.PickedIsEnabled` | internal/imapdrv/commands.go:30-36 | only commands with a positive weight are chosen |
| `ImapWire.TagsTellCommandsApart` | internal/imapdrv/client.go:83-85 | no line can complete two different commands of a connection |
| `ImapWire.TagText` | internal/imapdrv/client.go:83-85 | an "a" and the command's number in three digits, or in as many as it takes |
| `ImapWire.SizeIsRead` | internal/imapdrv/client.go:134-149 | reading a literal's size inverts printing it, in both forms, whatever precedes it |
| `ImapWire.SizeIff` | internal/imapdrv/client.go:134-149 | a line announces a literal of size n if and only if its last "{" and the "}" it ends in enclose n, with or without a plus |
| `ImapWire.Discard` | internal/imapdrv/client.go:152-157 | exactly n octets are skipped, or all and it fails |
| `ImapWire.ReadUntilTagged` | internal/imapdrv/client.go:98-131 | the loop computes the function the framing theorems are about |
| `ImapWire.RepliesAreFramed` | internal/imapdrv/client.go:98-131 | a reply with literals of any content is read as its untagged lines in order, and reading stops right after its tagged line |
| `ImapWire.FramedIffTailInnocuous` | internal/imapdrv/client.go:107-124 | a reply that a literal ends, whatever responses come before it, is framed if and only if the literal's tail looks like neither the tagged line nor a response nor a go-ahead |
| `ImapWire.CutShortIsLost` | internal/imapdrv/client.go:98-127 | a reply cut short at any octet is taken neither for completed nor for refused: the connection is lost |
| `ImapWire.QuotedString` | internal/imapdrv/client.go:207-218 | the loop over code points computes the quoted form, an octet that is part of none replaced by U+FFFD |
| `ImapWire.NamesAreSafe` | internal/imapdrv/client.go:204-218 | a server reads a quoted name back with such octets replaced, and the rest of the command untouched; the name itself if and only if it is UTF-8 |
| `ImapWire.Utf8Iff` | internal/imapdrv/client.go:207-218 | the scan for code points accepts exactly the texts that spell some, each by its bits |
| `ImapWire.RepairedMeans` | internal/imapdrv/client.go:210-215 | code points stay, and an octet at which none begins gives way to U+FFFD |
| `ImapWire.AppendIsFramed` | internal/imapdrv/client.go:177-202 | an append's message arrives octet for octet and the connection is left at the next command; what its line says is `AppendIsUnderstood` |
| `ImapWire.AppendIsUnderstood` | internal/imapdrv/client.go:177-218 | a server that reads tag, word, quoted name and literal gets this command's tag, the mailbox, as it is if and only if that is UTF-8, the message octet for octet, and is left at the next command |
| `ImapWire.Client.NextTag` | internal/imapdrv/client.go:83-85 | every command gets the next number's tag |
| `ImapWire.Client.Do` | internal/imapdrv/client.go:90-96 | one command is written, its own responses are returned, nothing of its reply is left for the next |
| `ImapWire.Client.AppendMessage` | internal/imapdrv/client.go:181-202 | the message is sent only after the go-ahead, and success is exactly a go-ahead and an OK; the connection stays in step either way |
| `DotStuffing.StuffDots` | internal/lmtp/lmtp.go:162-176 | the loop and its shortcut compute the stuffed message |
| `DotStuffing.ShortcutIsHarmless` | internal/lmtp/lmtp.go:186-194 | a message without a dotted line is its own stuffed form |
| `DotStuffing.Transparent` | internal/lmtp/lmtp.go:151-194 | for every message and every rest, a receiver gets the message, its last line ended, and leaves exactly the rest; counting lines agrees |
| `DotStuffing.CutShortIsNoticed` | internal/pop3drv/pop3.go:286-301 | a text cut short at any octet is not taken for a whole one |
| `DotStuffing.FullStops` | internal/lmtp/lmtp.go:151-184 | a transfer ends in a line with a lone full stop, and a full stop that starts a line is doubled |
| `DotStuffing.StrictTransparentIff` | internal/lmtp/lmtp.go:162-184 | a CRLF-only receiver leaves exactly the rest too, and gets the same message if and only if no dot follows a bare LF |
| `DotStuffing.DotAfterBareLfMeans` | internal/lmtp/lmtp.go:169-173 | the condition of the theorem above, found by scanning, read by position |
| `DotStuffing.ReadMultiline` | internal/pop3drv/pop3.go:286-301 | the loop counts the lines before the lone dot and consumes through it, or finds it missing |
| `Lmtp.ReadReply` | internal/lmtp/lmtp.go:229-247 | the loop computes the function the lockstep theorem is about, errors told apart |
| `Lmtp.ReplyIsRead` | internal/lmtp/lmtp.go:226-247 | a multi-line reply of the wanted code is consumed to its last octet, any other code refused |
| `Lmtp.CutShortIsNoReply` | internal/lmtp/lmtp.go:229-247 | a reply cut short at any octet is never taken for the one wanted |
| `Lmtp.Session.Cmd` | internal/lmtp/lmtp.go:202-217 | one line written, success exactly on the wanted code, nothing left unread |
| `Lmtp.Session.Body` | internal/lmtp/lmtp.go:250-268 | the stuffed message and terminator written, the server answering at once for every recipient it accepted; success exactly on one 250 for each, and then nothing left unread |
| `Lmtp.Deliver` | internal/lmtp/lmtp.go:71-126 | every command is sent in step with a server that itself counts the recipients it accepts; what is written is always a beginning of the dialogue, all of it exactly when every reply has its code; what a server makes of the dialogue is `DeliveryIsUnderstood`, and which codes those are `CodesAre` |
| `Lmtp.ServerReadsWhatWasMeant` | internal/lmtp/lmtp.go:88-125 | the server parses the whole stream as LHLO, MAIL, the RCPTs, DATA, the message, QUIT, line by line, whatever octets the message holds |
| `Lmtp.DeliveryIsUnderstood` | internal/lmtp/lmtp.go:88-125 | a server that knows nothing of the client takes from the stream the sender, the recipients, all and in order, from between the angle brackets of the MAIL and RCPT lines, and the message, and is left with QUIT and what follows, for all addresses without ">" or a newline |
| `Lmtp.CodesAre` | internal/lmtp/lmtp.go:85-125 | 250 to LHLO, MAIL and each RCPT, 354 to DATA, 250 for each recipient again, 221 to QUIT, and nothing else |
| `Lmtp.Rotation.constructor` | internal/lmtp/lmtp.go:49-52 | at least one recipient a message |
| `Lmtp.Rotation.NextRecipients` | internal/lmtp/lmtp.go:132-149 | one atomic step of the counter takes that many consecutive addresses; all positions handed out are 0, 1, 2, ... modulo the list, no gap and no overlap; none of an empty list |
| `Lmtp.Balanced` | internal/lmtp/lmtp.go:128-149 | after any number of draws from a rotation a position has had its whole rounds, and once more if the last one reached it |
| `Lmtp.NoRepeats` | internal/lmtp/lmtp.go:132-149 | no two of as many consecutive draws as there are recipients, a delivery's own among them, take the same position |
| `Pop3.ReadStatus` | internal/pop3drv/pop3.go:263-277 | one line consumed, the four outcomes told apart |
| `Pop3.StatusIsRead` | internal/pop3drv/pop3.go:262-277 | a conforming status line is consumed exactly and accepted exactly when positive |
| `Pop3.TextIsRead` | internal/pop3drv/pop3.go:262-301 | the answer to a command that asks for a text is consumed to the end of the text when positive, and its lines counted |
| `Pop3.Link.Cmd` | internal/pop3drv/pop3.go:190-198 | for a command the server answers in one line: success exactly on a positive reply, nothing left unread |
| `Pop3.Link.Multiline` | internal/pop3drv/pop3.go:242-253 | for a command the server answers with a text: success exactly on a positive reply; the text is counted line by line and consumed to its end, whatever it holds |
| `Pop3.Session` | internal/pop3drv/pop3.go:86-139 | against a server that decides by the command whether a text follows, every command is sent with nothing unread; the commands are always a beginning of the script for the maildrop's size, all of it exactly when every reply was positive and STAT held a number; which number is `StatIsCounted`, which commands `ScriptMeans` |
| `Pop3.StatIsCounted` | internal/pop3drv/pop3.go:213-221 | for every answer to STAT: its first run of octets without a blank is the count, if it is a number; without such a run, or when that is no number, there is none and the session fails |
| `Pop3.HasFirstField` | internal/pop3drv/pop3.go:213-216 | every answer is blanks, such a run, and what follows a blank |
| `Pop3.StatOfAMaildrop` | internal/pop3drv/pop3.go:200-222 | "+OK n octets" means n messages, for all n and octets |
| `Pop3.ScriptMeans` | internal/pop3drv/pop3.go:95-139 | the script literally, place by place: USER, PASS, STAT, LIST, UIDL if asked, for each k within maildrop and limit the RETR of the k-th newest with its DELE, QUIT, and nothing else |
| `Pop3.Fetch` | internal/pop3drv/pop3.go:120-133 | the loop sends the retrieval part of that script |
| `Pop3.RetrievesNewest` | internal/pop3drv/pop3.go:120-133 | the smaller of maildrop and limit are retrieved, the k-th being k below the newest, each followed by its DELE if asked |
| `Pop3.RetrievesEachOnce` | internal/pop3drv/pop3.go:123-132 | different numbers are different commands |
| `MboxCorpus.Mbox.Add` | internal/corpus/mbox.go:122-135 | one message more, in its normal form |
| `MboxCorpus.NormalForm` | internal/corpus/mbox.go:119-135 | it ends in CRLF, has no bare LF, and normalising again changes nothing |
| `MboxCorpus.NormalisedSaysTheSame` | internal/corpus/mbox.go:122-135 | with CRLF read as LF it is the message up to its last octet that is no line end, and one line end |
| `MboxCorpus.Mbox.CheckLineLengths` | internal/corpus/mbox.go:89-108 | a refusal names the first offending line of the first offending message and its length; no refusal means all fit |
| `MboxCorpus.LinesFit` | internal/corpus/mbox.go:74-76 | in a message the length check lets through every line, with its end, is at most 1000 octets |
| `MboxCorpus.Mbox.Next` | internal/corpus/mbox.go:147-150 | messages are handed out in turn, cycling |
| `MboxCorpus.LoadMbox` | internal/corpus/mbox.go:28-72 | the messages of any file in normal form, and a refusal exactly when there are none or some line is longer than 1000 octets |
| `MboxCorpus.ReplayIsExact` | internal/corpus/mbox.go:119-135 | receivers splitting at LF and receivers insisting on CRLF both get a loaded message octet for octet and leave what follows |
| `MboxCorpus.FileReads` | internal/corpus/mbox.go:35-64 | any list of messages written with separators and escaping reads back as that list, unquoted once |
| `MboxCorpus.UnfinishedReads` | internal/corpus/mbox.go:42-64 | a file that ends within a line has that as its last message's last |
| `MboxCorpus.HeadlessReads` | internal/corpus/mbox.go:42-64 | what stands before the first separator is a message too |
| `MboxCorpus.RoundTripIff` | internal/corpus/mbox.go:24-27 | the round trip holds if and only if no line starts ">From " already |
| `Generator.Settled` | internal/corpus/corpus.go:63-69 | sizes are positive and in order; 2048 stands for a smallest size that is not positive, the smallest for a largest below it |
| `Generator.WriteFiller` | internal/corpus/corpus.go:147-163 | nothing when the text is long enough, else as few words as reach the target, and a line end |
| `Generator.WordsLength` | internal/corpus/corpus.go:154-162 | the filler ends 2 to 12 octets past its target |
| `Generator.WordsAreMail` | internal/corpus/corpus.go:154-162 | filler lines end in CRLF, hold at most 90 octets and start with no dot |
| `Generator.WriteBase64Filler` | internal/corpus/corpus.go:165-181 | the nested loops write the payload |
| `Generator.PayloadLength` | internal/corpus/corpus.go:172-180 | n octets and a line end for every started 76 |
| `Generator.PayloadIsMail` | internal/corpus/corpus.go:169-180 | payload lines hold at most 78 octets and start with no dot |
| `Generator.Generator.Generate` | internal/corpus/corpus.go:96-137 | the rendered message, of exactly the length its headers and its size determine, at least as long as the size drawn and the smallest size; what it says is `PlainReads` and `AttachedReads` |
| `Generator.GeneratedSize` | internal/corpus/corpus.go:118-136 | that length, exactly; never below the size, equal to it only for a plain message whose headers are that long, and for a filled plain one 2 to 12 octets over |
| `Generator.WordsReach` | internal/corpus/corpus.go:152-162 | where whole words end that have to fill any room, in closed form |
| `Generator.BoundHoldsIff` | internal/corpus/corpus.go:20-24 | exactly which messages keep to the largest size: by the payload's line ends and closing delimiter, or by where the last word ends |
| `Generator.DefaultsOverrun` | internal/corpus/corpus.go:20-24 | with the default sizes a plain message of the largest size that can be drawn is longer than the bound unless its headers are just that long, which ordinary ones are not |
| `Generator.GeneratedTravels` | internal/corpus/corpus.go:87-136 | with newline-free addresses and headers that fit, stuffing is the identity, no line is too long, and any receiver gets the message octet for octet |
| `MailReader.PlainReads` | internal/corpus/corpus.go:110-121 | a program that only knows mail finds in the header the sender, the recipient, the numbered subject, the Message-Id with the recipient's tag, the date and the type, seven fields, and in the body the ten words in turn |
| `MailReader.AttachedReads` | internal/corpus/corpus.go:110-137 | the same header with a boundary; cut there, the body is exactly two parts: the words, filled to 512 octets, and a payload in base64 of one character for every octet of the size that was left, each of them known; it decodes if and only if their number is a multiple of four, and then to three octets for every four |
| `MailReader.DecodesIff` | internal/corpus/corpus.go:165-181 | characters of the alphabet without padding decode if and only if their number is a multiple of four |
| `RunDriver.StepKeepsInv` | internal/driver/driver.go:86-111 | every step of any worker keeps the run's invariant |
| `RunDriver.RunKeepsInv` | internal/driver/driver.go:75-113 | in every interleaving a failed call is recorded, on its way to it, or the context ended from outside, and so is a reported failure on its way to being a failed call |
| `RunDriver.IterationsAreHonoured` | internal/driver/driver.go:86-93 | never more calls than iterations, and exactly that many when a run ends uncancelled |
| `RunDriver.ErrorIffSomeCallFailed` | internal/driver/driver.go:95-119 | with StopOnError and no outside end, an error is returned if and only if some call failed |
| `RunDriver.FirstErrIsFirst` | internal/driver/driver.go:101-105 | the error a run returns is the one that was recorded first |
| `RunDriver.RecordedWasLive` | internal/driver/driver.go:95-99 | no call's error is recorded that came back after the context had ended |
| `RunDriver.RecordingStops` | internal/driver/driver.go:106-109 | with StopOnError, a worker that has recorded an error does nothing more than end the run |
| `RunDriver.AnErrorEndsTheRun` | internal/driver/driver.go:101-119 | with StopOnError, a run that is over and has an error was ended |
| `RunDriver.ErrorsExactly` | internal/stats/stats.go:80-99 | in every run the failures charged to the server are those that happened while the context was live, less those not yet reported when it ended |
| `RunDriver.ErrorsAreTheServers` | internal/stats/stats.go:101-109 | a summary of any run has at most as many cut-off operations as there are workers, and, when no connection outlives its deadline before the context ends, no more errors than the server caused; none against a server that never fails |
| `RunDriver.CleanIff` | internal/stats/stats.go:63-66 | against a server that never fails a run reports no errors if and only if every operation that its connection's deadline cut off before the context ended was still unreported when it did |
| `RunDriver.EarlyClock` | internal/stats/stats.go:63-66 | a run against a server that never fails with one error, the connection's deadline being noticed first |
| `RunDriver.OwnDeadline` | internal/imapdrv/client.go:53-55 | a run against a server that never fails with one error, that nothing ends but its iterations: a connection's deadline passes in the middle of it |
| `RunDriver.RealFailuresAreReported` | internal/stats/stats.go:80-99 | a run that ends by running out of iterations has counted every failed operation, and none as cut off |
| `RunDriver.GateIff` | main.go:136-151 | of every run: the exit status is non-zero if and only if some failure was reported while the context was live or, with StopOnError, some call's error was recorded |
| `RunDriver.GateCounts` | main.go:136-151 | the same in numbers: more operations failed while the context was live than were still unreported when it ended |
| `RunDriver.GateOfItsOwn` | main.go:136-151 | of a run that ends of its own: with StopOnError, if and only if some call failed, and without it, if and only if some operation did |
| `RunDriver.EndsFromOutside` | internal/driver/driver.go:37-53 | a run bounded by a duration alone and without StopOnError does not |
| `RunDriver.SilentFailure` | main.go:146-151 | a run in which a call fails and the program exits with zero |
| `RunDriver.LateReport` | main.go:146-151 | a run in which the server fails an operation, reported after the duration has passed, and the program exits with zero |
| `RunDriver.EveryStepIsProgress` | internal/driver/driver.go:86-111 | every step of a bounded run but an operation that succeeds uses up a measure |
| `RunDriver.RunsEnd` | internal/driver/driver.go:86-114 | a run bounded by iterations has at most as many steps as that measure is at its start, operations that succeed apart |
| `RunDriver.NoWorkerIsStuck` | internal/driver/driver.go:77-112 | a worker that is not gone always has a step to take |
| `Stats.Collector.BindRun` | internal/stats/stats.go:67-71 | from now on whose fault a failure is goes by this context, and the records stay |
| `Stats.Collector.Observe` | internal/stats/stats.go:73-99 | the new entry has this name and this latency, however it ended, and is a success, the server's failure with this text, or cut off if the bound run has ended by then; its command's record grows by just that, every other stays, and all stay those recomputed from the whole log |
| `Stats.CountsAddUp` | internal/stats/stats.go:80-99 | every operation is a success, an error or a cut-off one |
| `Stats.FirstFaultIsFirst` | internal/stats/stats.go:93-98 | the text kept is that of the first failure that has one |
| `Stats.Collector.Summarise` | internal/stats/stats.go:128-155 | the summary is the one recomputed from the whole log, with a row for every command that says how many samples there are, how they ended, the first error and the ranks |
| `Stats.CountsSum` | internal/stats/stats.go:151-152 | adding up per command is counting over the log |
| `Stats.StatsAreOrderStatistics` | internal/stats/stats.go:137-149 | minimum, median, percentiles and maximum are observed values in order, each of the rank its fraction of the way comes to: no more samples below it than that, and more at or below it |
| `Stats.ExtremesBound` | internal/stats/stats.go:137-149 | no sample lies outside the values of the first and the last rank |
| `Stats.IndexMonotone` | internal/stats/stats.go:157-163 | a higher percentile never has a lower index |
| `LiveTable.Live.CountErrors` | internal/stats/live.go:74-78 | new errors over all commands, seen or not |
| `LiveTable.Live.AddColumns` | internal/stats/live.go:80-91 | a column for every name, each once, in order, and a header when there are new ones |
| `LiveTable.Live.Deltas` | internal/stats/live.go:94-99 | under each column what its count grew by |
| `LiveTable.Live.Tick` | internal/stats/live.go:62-108 | exactly one line an interval, under a header of its own when there are new columns, and the header again after every twentieth; each column's numbers add up to its latest count and the error column to the summary's errors |
| `LiveTable.SummariesAddUp` | internal/stats/stats.go:136-153 | every summary's total is the sum over its commands |
| `LiveTable.AscendingIff` | internal/stats/live.go:88-91 | columns in strict order are sorted and without duplicates |
| `Recipients.ReadCount` | main.go:435-451 | the loop reads the count after the last colon |
| `Recipients.SplitTrailingNumber` | main.go:412-432 | where a run starts, and the three refusals |
| `Recipients.ExpandRecipients` | main.go:376-408 | the whole list in order, blanks left out, the first refusal refusing all; for explicit lists that is `PlainListExpands` |
| `Recipients.StandsForItselfIff` | main.go:388-397 | a part stands for itself if and only if it does not end in a colon and a count with an "@" before |
| `Recipients.PlainListExpands` | main.go:376-397 | a list of such parts, blanks around each, is taken as it is written, every one in its place |
| `Recipients.StartMeans` | main.go:412-432 | for every text before the "@": a run starts at the number it ends in, at one if it ends in none; refused are numbers of more than 63 bits, zero, and zeros before a number |
| `Recipients.ShorthandExpands` | main.go:373-406 | "local@domain:count" stands for exactly count different addresses beginning with the one written, or is refused |
| `Recipients.AddressTells` | main.go:403-405 | an expanded address determines its prefix, number and domain |
| `Recipients.RunsOverlapIff` | main.go:397-405 | two expanded parts share an address if and only if prefix and domain agree and the numbers overlap |

## Left out

- Dialling, TLS, deadlines, sockets and file reading: a connection is an octet sequence, a file too; a failed exchange is an input of the model.
- A connection that `dial` gives up on after an unreadable greeting is not one it returned; only returned ones are counted as opened.
- Randomness, the clock, the recipient hash and date texts: parameters of `Generate`; nothing is said about Message-Ids being unique.
- Machine integers: counters stay below 2^63 and `splitCount` below the int limit; `Atoi` has its limits.
- Percentiles are fractions with a floor index instead of floats; rates, durations in milliseconds, JSON and table formatting are not modelled.
- RunDriver and ImapSystem are state machines on values, not classes: what interleaves there are goroutines and processes; the locks make each modelled step atomic.
- RunDriver.ErrorsAreTheServers: a call reports at most one failed operation and returns a failure after it, as the LMTP, POP3 and IMAP drivers do; a JMAP call is not modelled.
- The error `Run` returns without any bound configured, and the ramp-up's timing: a worker may wake, or quit once the run has ended, at any step.
- The client keeps no promise about a server whose replies hold several literals in one response; `RepliesAreFramed` has at most one each.
- ImapDriver.Driver.Run: the text of each command's arguments beyond its mailbox or range, and the collector's observations, which record a chosen SELECT twice.
- ImapSystem: no flags but the mark of deletion; and what a session is told between two commands is only EXISTS and responses that move no count.
- Stats.Collector.Summarise and ImapCommands.Weights: the library's sort is an insertion sort.
- Pop3.Session: which user a session takes is the same rotation as in `Lmtp`, with one address at a time, and is not repeated.
- Recipients: white space is ASCII, and flag names in error texts are dropped.
- Lmtp.Rotation.NextRecipients: the counter never goes negative, so its correction for that is not modelled.
- `New` of each driver beyond the settings above fills in defaults; `Prepare` creates the mailboxes before a run; `ParseProfile` reads the weights off a flag; flags and logging configure and describe a run; jmapdrv drives JMAP over HTTP, whose framing is the library's; stallwatch takes profiles of a server that has stalled. None of them is part of this model.
