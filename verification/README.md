# HiChat: a verified model of its state machines

HiChat is a chat application with end-to-end encrypted direct messages. Most of its server moves data about; what
is hard in it are a few state machines. This Dafny project models them and proves what they keep. Check it with

    dafny verify dfyconfig.toml

## What is modelled

**The mailbox delivery protocol.** A direct message is stored in `mailbox` until its recipient acknowledges it and
for good in `message_deliveries`. `MailboxTables` gives both tables as a value and every repository transaction as
a function on it; `MailboxRepo` is the repository as a class whose methods are proved to be those functions.
`DeliveryProtocol` adds the armed acknowledgement timers and the bounded cache of recently delivered ids, and has
one step for each handler of a chat server; `ChatServer` holds the message service and the server as classes, with
their loops, proved to take exactly those steps. About every run of such steps:

- `MailboxNoLoss` and `DeliveryTransactions`: no letter is lost, under any interleaving of transactions of any
  number of servers, whatever clients do;
- `DeliveryInvariant`: the two tables, the timers and the cache agree, and stay so exactly as long as recipients
  conform (`Conforming` spells out what that asks, event by event, and it is the weakest such condition);
- `DeliveryHistory`: while recipients conform, the mailbox is the send history with the acknowledged letters taken
  out, and each message is queued once;
- `DeliveryReplay`: whatever clients do, what the server has said so far determines the mailbox and each replay,
  letter by letter and in send order, and when a resume skips nothing;
- `DeliveryRetries`: what one sweep does to every row and record, and, whatever clients do, that attempt counts
  count, that failed rows stay failed and that retrying ends;
- `DeliverySchedule`: when a message is tried again, to the millisecond, after each handler, and that over every
  run back-off is kept;
- `DeliveryNotices`: letters arrive as they were sent, records go on naming their letter's people, notices go to
  them, and which timers run;
- `DeliveryCache`: the cache is a shortcut and nothing else.

What goes wrong without conformance is shown too: a decryption report that arrives after the acknowledgement undoes
the acknowledgement, and once the cache has lost the id a resend is queued a second time
(`DeliveryCache.LateReportRequeues`).

**The in-memory SQL engine.** `SqlScanner` has the three hand-written character scanners as loops and proves that
they compute one function, that splitting a join of pieces gives the pieces back, and that quotes and brackets
protect. `WhereEvaluator` has the recursive WHERE evaluator and proves that it means what a printed AND/OR tree
means. `MemoryTables` gives the statements as functions on tables and proves that the engine's one stack of
snapshots implements nested transactions; `MemoryMeaning` proves what the statements mean: which rows a printed
condition picks, what a printed SET clause assigns, what row an INSERT makes and that keys stay unique (in `users`,
whose three keys get one check, exactly when: `MemoryMeaning.UserKeysStayUniqueIff`). `MemoryStore` has rows and
table maps as heap objects which statements change in place, and proves that no row is ever shared between live
tables and snapshots, so that the values really are what the functions say.

**The in-memory Redis engine and presence.** `RedisValues` and `RedisStore` are the engine, whose entries expire
lazily; `RedisLaws` proves that clients read back what they wrote for as long as it lives, and `RedisExpiry` proves
that a caller cannot tell this from expiring at once, and that EXPIRE is the exception and exactly when.
`PresenceValues` and `PresenceService` are presence on top of it; `PresenceInvariant` and `PresenceSafety` prove
that the expiries of its four kinds of key stay in order over every run, that the garbage collector evicts exactly
the users without a live socket, that others see what a user last wrote, and when a late heartbeat revives a socket
(one whose user's set was replaced meanwhile it does not: `PresenceSafety.HeartbeatRevivesIff`);
`PresenceRefinement` proves that while nothing expires the keys represent a plain set of connected sockets, and
`PresenceLifetimes` how long each call keeps a user shown.

**Refresh tokens.** `RefreshTokens` has the token table and its transactions, under any interleaving; `AuthService`
has the repository and the auth service as classes. Families are single parent chains, revocation is final, a token
rotates once and works until it expires, and reuse ends all of a user's sessions until the next login. One thing
the code does not do: the revocation it writes for an expired token, or for a token whose user is gone, is rolled
back by the error it throws next, so the table is unchanged.

**Three smaller ones.** `MessageLimiter` (the sliding window on room messages), `SingleFlight` (the client's one
refresh at a time) and `SafetyNumbers` (the symmetric number two users compare).

`Sequences` holds the few facts about sequences that the others share.

## Model

| member | source | states |
|---|---|---|
| MailboxRepo.MailboxRepository.QueueLetter | hichat-server/src/repositories/MailboxRepository.ts:5-42 | One transaction: a row and a record are written together, a duplicate message id or an unknown user leaves both tables alone but uses up a serial number |
| MailboxRepo.MailboxRepository.Increment | hichat-server/src/repositories/MailboxRepository.ts:44-73 | The attempt count grows by one; the next retry moves only when a delay is given; reports both as they are then, or one attempt when there is no record |
| MailboxRepo.MailboxRepository.Reschedule | hichat-server/src/repositories/MailboxRepository.ts:75-112 | Both tables go back to queued, except a record that is acknowledged, read or failed and a row that is acknowledged or failed; such a record apart, the next retry written and reported is now plus the delay; reports the attempts, or none without a record |
| MailboxRepo.MailboxRepository.Fail | hichat-server/src/repositories/MailboxRepository.ts:114-160 | Both tables call the message failed and no retry is due; reports sender, recipient and attempts from the record, or else from the row, or nothing when neither table knows it |
| MailboxRepo.MailboxRepository.Deliver | hichat-server/src/repositories/MailboxRepository.ts:247-252 | Row (by its id) and record (by message id) are marked delivered, unguarded |
| MailboxRepo.MailboxRepository.AcknowledgeMessage | hichat-server/src/repositories/MailboxRepository.ts:254-282 | Deletes exactly the acknowledging user's rows named by message id or mailbox id and records the acknowledgement, or undoes the delete when the record cannot be written; finds the sender to notify, without a mailbox id the record's |
| MailboxRepo.MailboxRepository.ReadMessage | hichat-server/src/repositories/MailboxRepository.ts:284-300 | Only the recipient's own record becomes read; the receipt goes to the sender named, or else to the record's, if any |
| MailboxRepo.MailboxRepository.RecordFailure | hichat-server/src/repositories/MailboxRepository.ts:302-309 | The record becomes decryption_failed, or is created between known users |
| MailboxTables.RowsUnique | hichat-server/src/db/migrations/003_mailbox_and_deliveries.ts:6-29 | The primary key and the unique message id identify a row |
| MailboxNoLoss.AppliedConstraints | hichat-server/src/db/migrations/003_mailbox_and_deliveries.ts:6-29 | Every transaction keeps primary key, unique message id and foreign keys of `mailbox` |
| MailboxNoLoss.SurvivesIffNotAcknowledged | hichat-server/src/repositories/MailboxRepository.ts:254-282 | A row, with its id, sender, recipient and ciphertext, outlives a transaction if and only if that is not its own recipient's successful acknowledgement of it |
| MailboxNoLoss.NeverRecreated | hichat-server/src/repositories/MailboxRepository.ts:5-42 | No transaction puts another letter under an id already handed out |
| MailboxNoLoss.GoneForGood | hichat-server/src/repositories/MailboxRepository.ts:5-42 | Over any interleaving, an id whose row is gone is never used again |
| MailboxNoLoss.NoLetterLost | hichat-server/src/repositories/MailboxRepository.ts:5-309 | Over any interleaving of transactions a letter is still in the mailbox, unchanged but for its status, if and only if its recipient has not acknowledged it |
| DeliveryTransactions.StepTransactions | hichat-server/src/socket/chatSocket.ts:377-1118 | Every handler is a sequence of repository transactions, and only the acknowledgement handler contains an acknowledgement |
| DeliveryTransactions.StepKeepsConstraints | hichat-server/src/socket/chatSocket.ts:377-1118 | Every handler keeps the constraints of both tables, conforming clients or not |
| DeliveryTransactions.RunKeepsConstraints | hichat-server/src/socket/chatSocket.ts:377-1118 | So does every run of handlers |
| DeliveryTransactions.StepLosesNothing | hichat-server/src/socket/chatSocket.ts:377-1118 | A letter outlives a handler if and only if that handler is not its own recipient's acknowledgement |
| DeliveryTransactions.DispatchTxsBulk | hichat-server/src/socket/chatSocket.ts:377-440 | A loop of attempt and delivered transactions, message by message, amounts to one bulk update of both tables |
| DeliveryTransactions.FailTxsBulk | hichat-server/src/services/messageService.ts:182-252 | So does the dead-lettering loop |
| DeliveryProtocol.RetryDelay | hichat-server/src/services/messageService.ts:118-122 | The delay of an attempt is its entry of the table; attempts before the first and beyond the last take its ends |
| DeliveryInvariant.AgreementIffConforming | hichat-server/src/socket/chatSocket.ts:262-1118 | One handler keeps tables, timers and cache in agreement if and only if the event conforms: an acknowledgement names only the recipient's own message, a read comes after its acknowledgement, a decryption report is about an unacknowledged message |
| DeliveryInvariant.AgreementHolds | hichat-server/src/socket/chatSocket.ts:262-1118 | They agree in every state of every run with conforming recipients |
| DeliveryInvariant.RowIffNotTerminal | hichat-server/src/repositories/MailboxRepository.ts:5-309 | A message has a mailbox row if and only if its record is neither acknowledged nor read |
| DeliveryInvariant.DeliveredStaysDelivered | hichat-server/src/socket/chatSocket.ts:289-1118 | No sweep, replay, late timeout, resend or foreign event takes an acknowledged or read message back; only a decryption report about it does |
| DeliveryInvariant.DeliveredForGood | hichat-server/src/socket/chatSocket.ts:289-1118 | Over every conforming run an acknowledged or read message stays so |
| DeliveryInvariant.RememberBounded | hichat-server/src/socket/chatSocket.ts:262-272 | The cache never exceeds 5000 ids, holds none twice, always keeps the newest and drops at most the oldest |
| DeliveryInvariant.QueuesOnlyNewMessages | hichat-server/src/socket/chatSocket.ts:905-949 | While the tables agree, only a message without any record is queued |
| DeliveryHistory.HistoryHolds | hichat-server/src/socket/chatSocket.ts:893-1054 | Over every conforming run the mailbox is the history of queued letters without the acknowledged ones, in order; failed rows are those given up; each message is queued at most once |
| DeliveryReplay.MailboxIsWhatIsLeft | hichat-server/src/socket/chatSocket.ts:893-1054 | Over every run, whatever clients do, the mailbox holds exactly the letters queued and not acknowledged by their own recipient since, in the order they were queued; those neither acknowledged nor given up since are the ones that have not failed |
| DeliveryReplay.ReplayIsInSendOrder | hichat-server/src/repositories/MailboxRepository.ts:221-232 | Over every run a replay hands over the first 50 letters owed, letter by letter in send order without gaps; the first 100 when resuming from a message no longer in the mailbox, and the first 100 queued after it when it still is |
| DeliveryReplay.IdsFollowSendOrder | hichat-server/src/repositories/MailboxRepository.ts:5-42 | Over every run the letters queued carry ever larger ids, so the order of the queries is the order of sending |
| DeliveryReplay.ResumeSkipsIff | hichat-server/src/repositories/MailboxRepository.ts:353-379 | Resuming gives the full pending list if and only if no pending row is as old as the row resumed from |
| DeliveryReplay.ResumeAfterAckSkipsNothing | hichat-server/src/repositories/MailboxRepository.ts:353-379 | Resuming from a message that really was acknowledged skips nothing |
| DeliveryRetries.AttemptsSinceQueued | hichat-server/src/repositories/MailboxRepository.ts:44-73 | Over every run, whatever clients do, the attempt count is the dispatches, live, by sweep and by replay, since the message was last queued, and exceeds the maximum at most by the replays since then |
| DeliveryRetries.AttemptsAreDispatches | hichat-server/src/repositories/MailboxRepository.ts:44-73 | So over a conforming run, which queues a message once, it is all its dispatches |
| DeliveryRetries.CandidatesUnaffected | hichat-server/src/services/messageService.ts:182-252 | The sweep's second query finds the same rows after the dead-lettering as before it |
| DeliveryRetries.TakeIsAmongFirst | hichat-server/src/repositories/MailboxRepository.ts:162-219 | A limited, ordered query returns a row if and only if the row matches and fewer than `limit` matching rows have a smaller id |
| DeliveryRetries.SweepDoesExactly | hichat-server/src/services/messageService.ts:182-252 | One sweep fails exactly the first `limit` live rows out of retries, delivers exactly the online recipients' rows among the first `limit` due ones, and leaves every other row alone |
| DeliveryRetries.SweepRecordsExactly | hichat-server/src/services/messageService.ts:182-252 | What one sweep does to each delivery record: failed without a next retry, or one attempt more and the next retry after that attempt's delay, or nothing |
| DeliveryRetries.StepPotential | hichat-server/src/services/messageService.ts:146-252 | The sum over live rows of maxRetries + 1 less attempts pays for every sweep action and grows only by a newly queued message, whatever the event |
| DeliveryRetries.RetryingEnds | hichat-server/src/services/messageService.ts:146-252 | Any run that queues N messages, whatever clients do, has at most (maxRetries + 1) * N sweep actions |
| DeliveryRetries.FailedStaysFailed | hichat-server/src/repositories/MailboxRepository.ts:75-219 | A failed row stays as it is for as long as it is there, whatever the event |
| DeliveryRetries.FailedForGood | hichat-server/src/repositories/MailboxRepository.ts:75-219 | Over every run, whatever clients do, a failed row never becomes live again, and its id never another row's |
| DeliverySchedule.SweepDispatchesIff | hichat-server/src/repositories/MailboxRepository.ts:162-219 | A sweep dispatches exactly the online recipients' rows that both tables call queued or delivered, that have attempts left, whose next retry is none or not after now, and that fewer than 100 such rows come before |
| DeliverySchedule.SweepFailsIff | hichat-server/src/repositories/MailboxRepository.ts:162-219 | It gives up on exactly the first 100 of the rows so called without attempts left |
| DeliverySchedule.NoneAhead | hichat-server/src/repositories/MailboxRepository.ts:162-219 | In a mailbox of at most 100 rows no row waits for others |
| DeliverySchedule.TimeoutWaits | hichat-server/src/services/messageService.ts:146-180 | After a timeout at t on a live message with n attempts of which some are left, a sweep dispatches it if and only if its recipient is online and t plus the delay of attempt n + 1 is over; that time is also the one reported |
| DeliverySchedule.TimeoutFailsIff | hichat-server/src/services/messageService.ts:146-180 | A timeout gives a message up if and only if its timer ran and its attempts, counted as at least one, reach the maximum |
| DeliverySchedule.TimeoutLeavesSettled | hichat-server/src/repositories/MailboxRepository.ts:83-89 | A late timeout leaves the record of an acknowledged, read or failed message alone |
| DeliverySchedule.QueuedIsDue | hichat-server/src/repositories/MailboxRepository.ts:5-42 | A message queued for an offline recipient at t is dispatched by any sweep from t on |
| DeliverySchedule.SentWaits | hichat-server/src/socket/chatSocket.ts:950-1005 | One handed over at once waits for the delay of the second attempt |
| DeliverySchedule.ReplayWaits | hichat-server/src/socket/chatSocket.ts:377-440 | So does a replayed one, whatever its attempts |
| DeliverySchedule.SweptWaits | hichat-server/src/services/messageService.ts:220-245 | One dispatched by a sweep after n attempts waits for the delay of attempt n + 2 |
| DeliverySchedule.AttemptReported | hichat-server/src/repositories/MailboxRepository.ts:44-73 | Counting an attempt reports one more than before and the next retry as it is then |
| DeliverySchedule.RetryReported | hichat-server/src/repositories/MailboxRepository.ts:75-112 | Rescheduling reports now plus the delay, unless the message is settled and keeps the time it has |
| DeliverySchedule.BackOffIsKept | hichat-server/src/services/messageService.ts:182-252 | Over every run in which nothing else happens to a message that waits until t, no sweep before t hands it over, however many there are |
| DeliveryNotices.LettersAsSent | hichat-server/src/socket/chatSocket.ts:893-1012 | Over every run, whatever clients do, every row ever queued carries a letter someone asked to send, word for word |
| DeliveryNotices.RecordsNameKnownPeople | hichat-server/src/db/migrations/003_mailbox_and_deliveries.ts:20-29 | Over any interleaving of transactions the foreign keys of `message_deliveries` hold |
| DeliveryNotices.RefusedIff | hichat-server/src/repositories/MailboxRepository.ts:254-309 | An acknowledgement or a decryption report is refused if and only if it would need a new record naming someone unknown |
| DeliveryNotices.AckSenderMeans | hichat-server/src/repositories/MailboxRepository.ts:259-282 | The sender found is that of the row named by its id, or else the record's, or none |
| DeliveryNotices.AckFindsSender | hichat-server/src/repositories/MailboxRepository.ts:259-282 | While the tables agree, acknowledging a letter in the mailbox finds its sender, with or without the mailbox id |
| DeliveryNotices.ReportsNameTheLetter | hichat-server/src/repositories/MailboxRepository.ts:44-309 | Over every conforming run the reports about any letter ever queued name its sender and recipient and count its dispatches |
| DeliveryNotices.UnrecordedReports | hichat-server/src/repositories/MailboxRepository.ts:119-160 | Without a record the row's people are reported with no attempts, and without either nothing |
| DeliveryNotices.ReadSenderMeans | hichat-server/src/repositories/MailboxRepository.ts:284-300 | A read receipt goes to the sender it names, and without a name to the record's |
| DeliveryNotices.NumbersSpent | hichat-server/src/repositories/MailboxRepository.ts:5-42 | A letter goes in if and only if its people are known and its message id is new; trying spends a number either way |
| DeliveryNotices.AckMeans | hichat-server/src/repositories/MailboxRepository.ts:254-282 | A successful acknowledgement deletes exactly its user's rows that carry the message or the named id and settles the message's record alone; a failed one changes nothing |
| DeliveryNotices.TimersExactly | hichat-server/src/socket/chatSocket.ts:289-615 | Which timers run after each handler: those before, plus one per message handed over to someone reachable, less the one acknowledged or fired; none after a stop |
| DeliveryNotices.StopAndRestart | hichat-server/src/socket/chatSocket.ts:607-615 | Stopping forgets the timers and nothing else, a restart the cache too |
| DeliveryCache.CacheHitIsRecordHit | hichat-server/src/socket/chatSocket.ts:905-949 | A cache hit suppresses only what the delivery record would have suppressed |
| DeliveryCache.CacheIsTransparent | hichat-server/src/socket/chatSocket.ts:262-272 | Over every conforming run a server with the cache and one without keep the same tables and timers and say the same |
| DeliveryCache.LateReportRequeues | hichat-server/src/socket/chatSocket.ts:1059-1086 | A concrete run without conformance: a decryption report after the acknowledgement lets a resend enter the mailbox again |
| ChatServer.MessageService.HandleAckTimeout | hichat-server/src/services/messageService.ts:146-180 | A timeout fails the message once its attempts reach the maximum and reschedules it by the next delay otherwise; reports attempts, sender, recipient, the delay and the next retry, which is now plus the delay unless the record is settled |
| ChatServer.MessageService.DeadLetterExhausted | hichat-server/src/services/messageService.ts:182-252 | The loop over exhausted rows fails exactly those |
| ChatServer.MessageService.DispatchCandidates | hichat-server/src/services/messageService.ts:182-252 | The loop over due rows dispatches exactly the online recipients', in id order |
| ChatServer.MessageService.ProcessRetryQueue | hichat-server/src/services/messageService.ts:182-252 | Both loops together are the sweep's effect on the tables |
| ChatServer.Server.ClearAckTimer | hichat-server/src/socket/chatSocket.ts:289-295 | The message's timer, if armed, is gone and no other |
| ChatServer.Server.ArmAckTimer | hichat-server/src/socket/chatSocket.ts:297-366 | The message has one timer, naming its row; an earlier one is replaced |
| ChatServer.Server.MarkMessageDelivered | hichat-server/src/socket/chatSocket.ts:262-272 | The newest id goes into the cache and a full cache loses its oldest first, as `Remember` has it |
| ChatServer.Server.SendDirectMessage | hichat-server/src/socket/chatSocket.ts:893-1012 | The send handler takes the protocol's send step, outputs included |
| ChatServer.Server.DeliverPendingMailbox | hichat-server/src/socket/chatSocket.ts:377-440 | The replay loop takes the protocol's replay step |
| ChatServer.Server.MailboxRetrySweep | hichat-server/src/socket/chatSocket.ts:450-555 | The sweep body takes the protocol's sweep step |
| ChatServer.Server.AckTimerFires | hichat-server/src/socket/chatSocket.ts:297-366 | A firing timer takes the protocol's timeout step |
| ChatServer.Server.AckDirectMessage | hichat-server/src/socket/chatSocket.ts:1017-1054 | The acknowledgement handler takes the protocol's acknowledgement step, and tells the sender found |
| ChatServer.SenderIsTold | hichat-server/src/socket/chatSocket.ts:1032-1046 | While the tables agree, the sender of a letter in the mailbox is told of its acknowledgement, and a timeout concerns its people |
| ChatServer.UnrecordedConcerns | hichat-server/src/services/messageService.ts:146-180 | Without a record a message given up concerns its row's people, and one rescheduled nobody |
| ChatServer.Server.ReadDirectMessage | hichat-server/src/socket/chatSocket.ts:1091-1118 | The read handler takes the protocol's read step, and finds the sender to notify |
| ChatServer.Server.SignalDecryptionError | hichat-server/src/socket/chatSocket.ts:1059-1086 | The decryption-error handler takes the protocol's step for it |
| ChatServer.Server.StopSocketSchedulers | hichat-server/src/socket/chatSocket.ts:607-615 | Stopping disarms every timer and changes nothing else |
| SqlScanner.SplitOutsideParens | hichat-server/src/db/postgres.ts:510-547 | The scanner loop computes `Split`, for every string |
| SqlScanner.SplitValues | hichat-server/src/db/postgres.ts:166-193 | The VALUES loop computes the same `Split` at commas, for every string |
| SqlScanner.ParseAssignments | hichat-server/src/db/postgres.ts:662-704 | The assignment loop is that split with each piece cut at its first equals sign and pieces without one dropped |
| SqlScanner.CutTrim | hichat-server/src/db/postgres.ts:662-704 | Cutting a piece before or after trimming gives the same assignment |
| SqlScanner.SplitJoin | hichat-server/src/db/postgres.ts:510-547 | Splitting a join of trimmed, balanced pieces without the delimiter at top level gives the pieces back |
| SqlScanner.ProtectedKept | hichat-server/src/db/postgres.ts:510-547 | A delimiter in quotes or in brackets does not cut, and a quote behind a backslash does not end a quotation |
| SqlScanner.SmallLetters | hichat-server/src/db/postgres.ts:549-565 | `and` and `or` are found in small letters too |
| WhereEvaluator.StripOuterParens | hichat-server/src/db/postgres.ts:487-508 | The loop strips exactly the bracket pairs that enclose the whole text |
| WhereEvaluator.NotWrappedText | hichat-server/src/db/postgres.ts:487-508 | `(a) AND (b)` and its like are not stripped: only a bracketed condition's own brackets enclose its text |
| WhereEvaluator.StripText | hichat-server/src/db/postgres.ts:487-508 | Stripping a condition's text leaves the text of what is inside all its outer brackets, with the same meaning |
| WhereEvaluator.SplitText | hichat-server/src/db/postgres.ts:549-565 | Splitting a condition's text at its own level gives the texts of its operands |
| WhereEvaluator.EvalMeansTree | hichat-server/src/db/postgres.ts:549-565 | Evaluating the text of any AND/OR tree, with the brackets it needs and any more, gives the tree's value |
| WhereEvaluator.PrintedMeansTree | hichat-server/src/db/postgres.ts:549-565 | So does evaluating it printed with the fewest brackets |
| WhereEvaluator.WithoutBrackets | hichat-server/src/db/postgres.ts:549-565 | OR binds looser than AND: without brackets `a OR b AND c` means `a OR (b AND c)` |
| MemoryTables.NestingIsRespected | hichat-server/src/db/postgres.ts:48-67 | Every well-nested program of statements and transactions has its meaning: a commit keeps what its body did, a rollback restores tables and counters exactly as at its own BEGIN |
| MemoryTables.ReplyIsTheDifference | hichat-server/src/db/postgres.ts:257-446 | What a statement reports is the difference it makes, row for row: an UPDATE leaves the rows not chosen and those it reports, a DELETE takes out those it reports, an INSERT's row is in the table, a SELECT changes nothing |
| MemoryTables.FirstConflictIsFirst | hichat-server/src/db/postgres.ts:238-255 | The conflicting row an INSERT finds is the first one, and none is missed |
| MemoryMeaning.DeleteMeans | hichat-server/src/db/postgres.ts:337-375 | A DELETE with the text of a condition takes out, and reports, exactly the rows that satisfy it |
| MemoryMeaning.UpdateMeans | hichat-server/src/db/postgres.ts:296-334 | An UPDATE with the texts of assignments and a condition carries them out on exactly the rows that satisfy it, and reports those |
| MemoryMeaning.SelectMeans | hichat-server/src/db/postgres.ts:378-436 | A SELECT reports exactly the rows that satisfy its condition, the first up to its limit, and changes none |
| MemoryMeaning.BlankMeansAll | hichat-server/src/db/postgres.ts:549-550 | Without a condition a statement is about every row |
| MemoryMeaning.LastCommandAnswers | hichat-server/src/db/postgres.ts:85-101 | The result of several statements is the last one's, on the tables as they are by then |
| MemoryMeaning.SetTextCuts | hichat-server/src/db/postgres.ts:662-704 | The text of a SET clause is cut into the assignments it was written from |
| MemoryMeaning.AssignmentsInOrder | hichat-server/src/db/postgres.ts:706-756 | Each assignment gives its column the value its token has after those before it, or does nothing when the token is blank or not understood |
| MemoryMeaning.ColumnMeans | hichat-server/src/db/postgres.ts:706-712 | A column may be written with its table |
| MemoryMeaning.NewRowMeans | hichat-server/src/db/postgres.ts:195-232 | Every column of a new row is what it is given or its table's default, and there are no others |
| MemoryMeaning.NumberedInOrder | hichat-server/src/db/postgres.ts:77-83 | Over every run of statements the rows of `mailbox` are numbered from one in the order of the inserts, conflicts included |
| MemoryMeaning.InsertMeans | hichat-server/src/db/postgres.ts:234-270 | In a table with one key an INSERT adds its row when the key is new, and otherwise keeps, merges or replaces the row that has it |
| MemoryMeaning.KeysStayUnique | hichat-server/src/db/postgres.ts:234-270 | No INSERT gives two rows of such a table one key |
| MemoryMeaning.UserKeysStayUniqueIff | hichat-server/src/db/postgres.ts:238-270 | In `users`, with three keys, what an INSERT puts in the place of the first row in conflict keeps them unique if and only if it clashes with no other row |
| MemoryMeaning.UserKeysCanClash | hichat-server/src/db/postgres.ts:238-270 | A concrete INSERT after which two users bear one name |
| MemoryMeaning.TablesComeAndGo | hichat-server/src/db/postgres.ts:121-138 | CREATE adds one empty table unless it is there, DROP removes exactly the tables named |
| MemoryStore.ApplySet | hichat-server/src/db/postgres.ts:706-756 | The SET clause's assignments change the row object in place, each seeing the ones before |
| MemoryStore.UpdateInPlace | hichat-server/src/db/postgres.ts:305-334 | The UPDATE loop changes exactly the selected rows and reports them in order |
| MemoryStore.Remaining | hichat-server/src/db/postgres.ts:343-367 | The DELETE loop keeps exactly the rows not selected, in order and the same objects, and reports the others |
| MemoryStore.Choose | hichat-server/src/db/postgres.ts:378-436 | A SELECT of all columns of one table gives the rows chosen, in table order, up to its limit |
| MemoryStore.FindConflict | hichat-server/src/db/postgres.ts:238-255 | The search for a conflicting row, table by table |
| MemoryStore.CopyTables | hichat-server/src/db/postgres.ts:48-55 | Every row is copied into a new object; the copies share nothing with anything |
| MemoryStore.TableMap.ChangeInPlace | hichat-server/src/db/postgres.ts:305-334 | Changing rows of one table in place changes no other table |
| MemoryStore.TableMap.Insert | hichat-server/src/db/postgres.ts:257-270 | A conflicting row is kept, merged in place or replaced as the statement asks; otherwise the row goes last |
| MemoryStore.MemoryPostgresStore.BeginTransaction | hichat-server/src/db/postgres.ts:48-55 | Pushes the current tables and counters; no row is shared afterwards |
| MemoryStore.MemoryPostgresStore.CommitTransaction | hichat-server/src/db/postgres.ts:57-59 | Pops a snapshot and keeps the tables |
| MemoryStore.MemoryPostgresStore.RollbackTransaction | hichat-server/src/db/postgres.ts:61-67 | Puts the last snapshot back; without one nothing happens |
| MemoryStore.MemoryPostgresStore.NextSerial | hichat-server/src/db/postgres.ts:77-83 | Serial numbers count up from one, per table |
| MemoryStore.MemoryPostgresStore.Insert | hichat-server/src/db/postgres.ts:195-293 | INSERT does to the tables what its function says, and to no snapshot anything; reports the row as it is left |
| MemoryStore.MemoryPostgresStore.Update | hichat-server/src/db/postgres.ts:305-334 | UPDATE likewise, in place; reports the rows changed, whose number is the row count |
| MemoryStore.MemoryPostgresStore.Delete | hichat-server/src/db/postgres.ts:343-375 | DELETE likewise; reports the rows taken out |
| MemoryStore.MemoryPostgresStore.Select | hichat-server/src/db/postgres.ts:378-436 | SELECT reports the rows chosen; all it changes is that the table exists from then on |
| MemoryStore.MemoryPostgresStore.CreateTable | hichat-server/src/db/postgres.ts:121-128 | CREATE TABLE adds an empty table unless it is there |
| MemoryStore.MemoryPostgresStore.DropTables | hichat-server/src/db/postgres.ts:131-138 | DROP TABLE removes each table named |
| MemoryStore.MemoryPostgresStore.ExecuteSingle | hichat-server/src/db/postgres.ts:103-436 | Each command does, and reports, what its function says and keeps rows unshared |
| MemoryStore.MemoryPostgresStore.ExecuteAll | hichat-server/src/db/postgres.ts:85-101 | Every run of commands does, and never lets a row be shared between live tables and a snapshot or between two snapshots; the result is the last command's |
| RedisStore.MemoryRedisStore.Set | hichat-server/src/db/redis.ts:46-55 | SET stores the string with the deadline its options give; zero is no option |
| RedisStore.MemoryRedisStore.SetEx | hichat-server/src/db/redis.ts:57-61 | SETEX stores the string with a deadline |
| RedisStore.MemoryRedisStore.Get | hichat-server/src/db/redis.ts:63-71 | GET reads a live string and removes an expired one |
| RedisStore.MemoryRedisStore.Del | hichat-server/src/db/redis.ts:73-83 | DEL removes the keys from all three maps and counts what was there |
| RedisStore.MemoryRedisStore.Exists | hichat-server/src/db/redis.ts:85-98 | EXISTS counts the keys with something live under them |
| RedisStore.MemoryRedisStore.Expire | hichat-server/src/db/redis.ts:101-114 | EXPIRE moves the deadline of everything under the key, expired or not |
| RedisStore.MemoryRedisStore.Ttl | hichat-server/src/db/redis.ts:116-129 | TTL gives the remaining whole seconds, -1 without a deadline, -2 past it |
| RedisStore.MemoryRedisStore.SAdd | hichat-server/src/db/redis.ts:132-149 | SADD adds to a live set or starts a new one, and counts the new members |
| RedisStore.MemoryRedisStore.SRem | hichat-server/src/db/redis.ts:151-164 | SREM takes out of a live set, removes it when empty, and counts what it took |
| RedisStore.MemoryRedisStore.SMembers | hichat-server/src/db/redis.ts:166-174 | SMEMBERS reads a live set and removes an expired one |
| RedisStore.MemoryRedisStore.SCard | hichat-server/src/db/redis.ts:176-184 | SCARD likewise counts it |
| RedisStore.MemoryRedisStore.SIsMember | hichat-server/src/db/redis.ts:186-194 | SISMEMBER likewise asks it |
| RedisStore.MemoryRedisStore.HSet | hichat-server/src/db/redis.ts:197-215 | HSET writes into a live hash or starts a new one, and counts the new fields |
| RedisStore.MemoryRedisStore.HGet | hichat-server/src/db/redis.ts:217-222 | HGET reads a field of a live hash; an empty value reads as none |
| RedisStore.MemoryRedisStore.HGetAll | hichat-server/src/db/redis.ts:224-236 | HGETALL reads a live hash and removes an expired one |
| RedisStore.MemoryRedisStore.HDel | hichat-server/src/db/redis.ts:238-248 | HDEL takes fields out of a live hash and counts them |
| RedisStore.MemoryRedisStore.Keys | hichat-server/src/db/redis.ts:251-269 | KEYS deletes what has expired and returns the keys left that match |
| RedisExpiry.LazyIsEager | hichat-server/src/db/redis.ts:37-269 | One operation replies, and leaves behind, what a store purged beforehand would |
| RedisExpiry.ExpireAgreesIff | hichat-server/src/db/redis.ts:101-114 | EXPIRE agrees with the purged store if and only if nothing expired is left under its key |
| RedisExpiry.LazyExpiryIsTransparent | hichat-server/src/db/redis.ts:37-269 | Over every timed run with EXPIRE so used, all replies but TTL results and DEL counts are those of a store purged at once |
| RedisLaws.GetAfterSet | hichat-server/src/db/redis.ts:46-71 | A string is read back as written until its seconds or milliseconds are over, and no other key changes |
| RedisLaws.SetsReadBack | hichat-server/src/db/redis.ts:132-174 | A set has what was added and not what was removed; the counts are of members new and members there; no other set changes |
| RedisLaws.SetReadsAgree | hichat-server/src/db/redis.ts:166-194 | SMEMBERS, SCARD and SISMEMBER agree |
| RedisLaws.HashesReadBack | hichat-server/src/db/redis.ts:197-248 | A hash has the fields written, the last write of each, without those deleted; likewise the counts and other hashes |
| RedisLaws.HashReadsAgree | hichat-server/src/db/redis.ts:217-236 | HGET gives the field HGETALL has, an empty one as none |
| RedisLaws.WritesKeepTime | hichat-server/src/db/redis.ts:132-215 | Writing into a live set or hash leaves its deadline; one that is over starts anew without |
| RedisLaws.EmptiedCollections | hichat-server/src/db/redis.ts:151-248 | A set goes with its last member, a hash stays without fields |
| RedisLaws.ExistsCounts | hichat-server/src/db/redis.ts:85-98 | EXISTS counts the keys with something alive, repeated keys repeatedly |
| RedisLaws.DelForgets | hichat-server/src/db/redis.ts:73-83 | After DEL nothing is left under its keys and everything under the others; it counts what the three maps lost |
| RedisLaws.ExpireMeans | hichat-server/src/db/redis.ts:101-114 | EXPIRE gives everything under its key the same time to live and says whether there is anything |
| RedisLaws.TtlMeans | hichat-server/src/db/redis.ts:116-129 | TTL is the remaining time in seconds rounded up, -1 without deadline or entry, -2 when it is over |
| RedisLaws.ReadsRemoveWhatIsOver | hichat-server/src/db/redis.ts:63-194 | A read removes what it finds expired and nothing else |
| RedisLaws.KeysMeans | hichat-server/src/db/redis.ts:251-269 | KEYS gives exactly the matching keys with an entry that is not over or whose deadline is zero |
| PresenceValues.KeysDiffer | hichat-server/src/services/presenceService.ts:43-46 | The four kinds of key never coincide as texts, whatever the ids |
| PresenceService.PresenceService.MarkOnline | hichat-server/src/services/presenceService.ts:26-97 | Connecting writes the four keys and reports the user's socket count and whether it is the first |
| PresenceService.PresenceService.MarkOffline | hichat-server/src/services/presenceService.ts:103-178 | Disconnecting removes the socket and, with the last, the user; reports who it was and what is left |
| PresenceService.PresenceService.Heartbeat | hichat-server/src/services/presenceService.ts:183-206 | A heartbeat renews the expiries, and fails when the user's record is gone |
| PresenceService.PresenceService.UpdateStatus | hichat-server/src/services/presenceService.ts:279-290 | A status change renews the user's record, and fails when it is gone |
| PresenceService.PresenceService.GetPresence | hichat-server/src/services/presenceService.ts:211-235 | A user is shown if and only if they have a record and a socket, with exactly those sockets and the record's fields or their defaults |
| PresenceService.PresenceService.GetUserSockets | hichat-server/src/services/presenceService.ts:262-265 | The sockets of the user's live set |
| PresenceService.PresenceService.GetOnlineUsers | hichat-server/src/services/presenceService.ts:240-257 | Everyone in the online set who can be shown, once each and as they are shown, and no one else |
| PresenceService.PresenceService.CleanupExpiredPresence | hichat-server/src/services/presenceService.ts:295-331 | The two nested loops clean every online user, once each in the order they come, and report whom they gave up and every socket they took out |
| PresenceService.PresenceService.CleanSockets | hichat-server/src/services/presenceService.ts:309-319 | The inner loop drops exactly the sockets without a live record |
| PresenceInvariant.MarkOnlineKeeps | hichat-server/src/services/presenceService.ts:26-97 | Connecting keeps: a socket's record expires no later than the user's set, the set no later than the user's record, and a user with a set is online |
| PresenceInvariant.MarkOfflineKeeps | hichat-server/src/services/presenceService.ts:103-178 | So does disconnecting |
| PresenceInvariant.HeartbeatKeeps | hichat-server/src/services/presenceService.ts:183-206 | So does a heartbeat, even where it revives what had expired |
| PresenceInvariant.UpdateStatusKeeps | hichat-server/src/services/presenceService.ts:279-290 | So does a status change |
| PresenceInvariant.LookUpKeeps | hichat-server/src/services/presenceService.ts:211-235 | So does looking a user up, which removes expired entries |
| PresenceInvariant.CleanUserKeeps | hichat-server/src/services/presenceService.ts:304-331 | So does cleaning one user |
| PresenceSafety.ExpiriesStayOrdered | hichat-server/src/services/presenceService.ts:26-343 | All of it holds after every run, however the clock moves on between calls |
| PresenceSafety.LiveUserKept | hichat-server/src/services/presenceService.ts:322-323 | A user with a live socket has a live record when the collector looks |
| PresenceSafety.CleanUserDoes | hichat-server/src/services/presenceService.ts:304-331 | Cleaning one user leaves exactly their live sockets, or evicts them when there are none, and touches no one else |
| PresenceSafety.CleanUpIsExact | hichat-server/src/services/presenceService.ts:295-343 | After a clean-up, in any order, the online users are exactly those who had a live socket: no one else is evicted, no one else is kept |
| PresenceSafety.CleanUpLeavesLiveSockets | hichat-server/src/services/presenceService.ts:295-343 | After it every set left belongs to an online user and holds exactly their live sockets |
| PresenceSafety.ExpiredAreLost | hichat-server/src/services/presenceService.ts:321-342 | The users a clean-up reports as expired are exactly those without a live socket |
| PresenceSafety.CleanedAreDead | hichat-server/src/services/presenceService.ts:309-319 | The sockets a clean-up reports as cleaned are exactly the dead ones of the users it went through, once each |
| PresenceSafety.ConnectIsShown | hichat-server/src/services/presenceService.ts:26-235 | Whoever looks a user up right after they connect sees what they connected with, defaults filled in, and the new socket; everyone else is shown as before |
| PresenceSafety.HeartbeatIsShown | hichat-server/src/services/presenceService.ts:183-235 | After a heartbeat a user is shown with its time and otherwise as before |
| PresenceSafety.StatusIsShown | hichat-server/src/services/presenceService.ts:211-290 | After a status change a user is shown with it and otherwise as before |
| PresenceSafety.HeartbeatRevivesIff | hichat-server/src/services/presenceService.ts:183-206 | A heartbeat brings its socket back to life if and only if the socket is still in its user's set and still has a record, expired or not; otherwise it stays out of the set until it joins again |
| PresenceLifetimes.ConnectLasts | hichat-server/src/services/presenceService.ts:26-97 | A user who connects is shown, and their socket's record lives, for sixty seconds from then and no longer |
| PresenceLifetimes.RecordsSay | hichat-server/src/services/presenceService.ts:50-80 | What the records of the socket and of the user say after connecting, defaults filled in |
| PresenceLifetimes.HeartbeatLasts | hichat-server/src/services/presenceService.ts:183-206 | A heartbeat of a user who is shown gives them, and its socket's record, sixty seconds from then |
| PresenceLifetimes.DisconnectLasts | hichat-server/src/services/presenceService.ts:140-165 | So does a disconnection that leaves them other sockets |
| PresenceLifetimes.StatusLasts | hichat-server/src/services/presenceService.ts:279-290 | A status change renews the record alone: the user is shown until their set is over |
| PresenceLifetimes.LookUpRemovesExpired | hichat-server/src/services/presenceService.ts:211-235 | Looking a user up removes what of theirs has expired and nothing else |
| PresenceLifetimes.ListedAreShown | hichat-server/src/services/presenceService.ts:240-257 | The list has an entry for each online user who is shown, and no other |
| PresenceLifetimes.GivenUpIff | hichat-server/src/services/presenceService.ts:322-323 | The collector gives up a user without a live record or without a live socket, whatever else is stored |
| PresenceRefinement.ConnectRefines | hichat-server/src/services/presenceService.ts:26-97 | While nothing expires, connecting adds the socket to the plain set of connections, and the count reported is the user's connections |
| PresenceRefinement.DisconnectRefines | hichat-server/src/services/presenceService.ts:103-178 | Disconnecting removes it, and what is reported as left is what is left: last if and only if the user has no other |
| PresenceRefinement.StepRefines | hichat-server/src/services/presenceService.ts:26-343 | Every other call leaves the plain set alone |
| PresenceRefinement.PresenceIsConnections | hichat-server/src/services/presenceService.ts:26-343 | Over every run in which nothing expires, a user is online if and only if one of their sockets is connected, and their set is exactly those sockets |
| AuthService.RefreshTokenRepository.FindByTokenHash | hichat-server/src/repositories/RefreshTokenRepository.ts:10-16 | The first token with that hash, or none |
| AuthService.RefreshTokenRepository.Create | hichat-server/src/repositories/RefreshTokenRepository.ts:54-83 | One row more, unrevoked and without a successor, with the expiry given |
| AuthService.RefreshTokenRepository.RevokeToken | hichat-server/src/repositories/RefreshTokenRepository.ts:85-92 | The token is revoked and its successor overwritten, also with none |
| AuthService.RefreshTokenRepository.RevokeFamily | hichat-server/src/repositories/RefreshTokenRepository.ts:94-102 | Every unrevoked token of the family is revoked, and counted |
| AuthService.RefreshTokenRepository.RevokeAllForUser | hichat-server/src/repositories/RefreshTokenRepository.ts:104-112 | Every unrevoked token of the user is revoked, and counted |
| AuthService.AuthService.CreateRefreshSession | hichat-server/src/services/authService.ts:158-180 | A login starts a family of its own |
| AuthService.AuthService.RotateTransaction | hichat-server/src/services/authService.ts:282-360 | The transaction: every verdict and its effect; the errors it throws leave the table unchanged |
| AuthService.AuthService.RotateRefreshToken | hichat-server/src/services/authService.ts:275-402 | The transaction and, on reuse, the revocation of everything the user holds |
| AuthService.AuthService.Logout | hichat-server/src/services/authService.ts:404-423 | The token presented is revoked; an unknown one changes nothing |
| AuthService.AuthService.LogoutAll | hichat-server/src/services/authService.ts:425-429 | The user has no unrevoked token left |
| AuthService.CountsAreChanges | hichat-server/src/repositories/RefreshTokenRepository.ts:94-112 | The rows a revocation counts are those it changes |
| RefreshTokens.FamiliesAreChains | hichat-server/src/services/authService.ts:158-360 | Under any interleaving every family is one parent chain of one user in which only the last token can be unrevoked |
| RefreshTokens.RevocationIsFinal | hichat-server/src/repositories/RefreshTokenRepository.ts:54-112 | Over every run no row is lost or becomes another, and no revocation is taken back |
| RefreshTokens.RotatesAtMostOnce | hichat-server/src/services/authService.ts:275-360 | In any run a token is rotated at most once |
| RefreshTokens.PresentDoes | hichat-server/src/services/authService.ts:275-402 | Presenting a revoked token leaves its user without an unrevoked one; an expired token, or one whose user is gone, leaves the table as it was; a good one is revoked in favour of one unrevoked successor in its family with the new expiry, and no other row changes |
| RefreshTokens.NoSessionWithoutLogin | hichat-server/src/services/authService.ts:275-429 | Once a user has no unrevoked token, nothing but a login gives them one |
| RefreshTokens.LoginIsGood | hichat-server/src/services/authService.ts:158-180 | The token a login hands out rotates for as long as it has not expired and its user is there |
| RefreshTokens.SuccessorIsGood | hichat-server/src/services/authService.ts:275-360 | So does the token a rotation hands out, up to the new expiry, while the rotated one is reuse from then on |
| RefreshTokens.RevocationEnds | hichat-server/src/repositories/RefreshTokenRepository.ts:85-112 | After a revocation exactly the tokens it is about are reuse; what becomes of any other is unchanged |
| MessageLimiter.RateLimiter.Allow | hichat-server/src/socket/chatSocket.ts:1218-1227 | The handler's filter, push and comparison; a rejected attempt is recorded too |
| MessageLimiter.RateLimiter.Disconnect | hichat-server/src/socket/chatSocket.ts:1334-1334 | A socket's list goes when it disconnects |
| MessageLimiter.KeptIsHistory | hichat-server/src/socket/chatSocket.ts:1218-1227 | The pruned list is the socket's whole history of attempts, restricted to the window, and nothing once the socket has disconnected |
| MessageLimiter.AcceptsIff | hichat-server/src/socket/chatSocket.ts:1218-1227 | An attempt is accepted if and only if fewer than five came in the two seconds before it |
| MessageLimiter.AtMostFivePerWindow | hichat-server/src/socket/chatSocket.ts:227-229 | Any half-open window of two seconds holds at most five accepted messages of a socket, which may disconnect at any time and then attempts no more |
| SingleFlight.Interceptor.ProcessQueue | hichat/src/api/client.ts:32-41 | Every waiting promise is settled, in order, with the one outcome, and the queue is emptied |
| SingleFlight.Interceptor.OnError | hichat/src/api/client.ts:43-66 | Up to the await: reject, queue or start a refresh |
| SingleFlight.Interceptor.OnRefreshed | hichat/src/api/client.ts:68-80 | After it: settle the queue and allow the next refresh |
| SingleFlight.EveryWaiterSettledOnce | hichat/src/api/client.ts:29-85 | In every run at most one refresh is under way, a non-empty queue implies one, and waiters are settled in order, each once, with the outcome of the refresh they waited on; when none is under way all are settled |
| SingleFlight.OneRefreshPerRequest | hichat/src/api/client.ts:50-66 | One request starts at most one refresh |
| SingleFlight.ReactsExactly | hichat/src/api/client.ts:43-85 | In every run a request refused as unauthorized, not the refresh itself, that has started none before, starts a refresh when none is under way and waits when one is; every other is rejected |
| SafetyNumbers.CompareByteArrays | hichat/src/services/crypto.service.ts:192-200 | The loop gives the first difference or the difference in length, and zero only for equal arrays |
| SafetyNumbers.ByteOrderIsTotal | hichat/src/services/crypto.service.ts:192-200 | It is a total order |
| SafetyNumbers.OrderIsLexicographic | hichat/src/services/crypto.service.ts:192-200 | The first byte that differs decides, by its value, and a beginning comes before what it begins |
| SafetyNumbers.CombinedDeterminesKeys | hichat/src/services/crypto.service.ts:215-222 | For keys of one length the hashed bytes are equal if and only if the unordered pairs of keys are |
| SafetyNumbers.CombinedDeterminesIff | hichat/src/services/crypto.service.ts:215-222 | Keys of any lengths with equal hashed bytes are the same two, up to order, if and only if the keys that go first have the same length |
| SafetyNumbers.LengthsMatter | hichat/src/services/crypto.service.ts:215-222 | The condition can fail: a concrete pair of different pairs of keys with the same bytes |
| SafetyNumbers.ComputeSafetyNumber | hichat/src/services/crypto.service.ts:211-238 | The buffers filled, hashed and formatted in loops are the safety number's definition |
| SafetyNumbers.SafetyNumberIsSymmetric | hichat/src/services/crypto.service.ts:211-238 | Both parties get the same text, whatever the digest |
| SafetyNumbers.BlockReads | hichat/src/services/crypto.service.ts:232-234 | A block is five digits and reads back as the number modulo 100000 |
| SafetyNumbers.TextShowsDigest | hichat/src/services/crypto.service.ts:229-237 | A 32-byte digest gives 47 characters, and texts are equal if and only if the digests agree block by block modulo 100000 |
| SafetyNumbers.TextReads | hichat/src/services/crypto.service.ts:229-237 | Read as shown, each group is four bytes of the digest, the first counting most, modulo 100000, with a space after each but the last |

## Left out

- Handlers of one chat server are atomic steps, at one moment of the clock each; only `NoLetterLost` and the refresh token properties are proved for interleaved transactions. `markDelivered` and `markFailed` update unguarded, so stronger claims need that atomicity.
- Timestamps other than `next_retry_at`, reasons for failures, user agents and addresses: stored and never decided on.
- Emits, acknowledgement callbacks, logging and metrics; what a step tells the outside is an output value.
- Message ids, token ids, hashes and family names: their generation is a parameter; where it matters they are required to be new.
- `resetToQueued`, `getUnacknowledgedForRetry`, `deleteExpiredTokens`, `deleteByUserId` and the cascades of deleting a user: no handler of the protocol reaches them.
- That every online recipient's message is retried in the end: due rows of offline recipients stay at the front of the sweep's query, so this needs fewer of them than the sweep's limit.
- A sweep that finds another one running returns at once; as a sweep is one step, no run contains that case.
- The regular expressions that recognise a statement, its column list and its VALUES body, and the coercion of tokens to values: a statement is a value, and what one predicate or token means in a row is a parameter (`Engine`).
- Whitespace other than a single space: SQL reaches the scanners with every run of whitespace collapsed (hichat-server/src/db/postgres.ts:104), which makes the delimiters `" OR "` and `" AND "`.
- Transactions on the in-memory store that overlap without nesting: its one stack of snapshots gives them no isolation.
- MemoryStore.MemoryPostgresStore.ExecuteSingle: a SELECT with a join, an ORDER BY, a COUNT or a column list, and the choice of columns in RETURNING, are not commands of the model; nor are CREATE INDEX, DROP INDEX and ALTER TABLE, which do nothing.
- MemoryStore.MemoryPostgresStore.Select: `SELECT *` hands out the live row objects; the model reports their fields at that moment.
- The order of set members and hash fields in the Redis engine, and its publish and subscribe.
- Negative times to live, and values other than strings.
- MemoryStore.TableMap.CopyOf: the loop copies tables in an arbitrary order, the source in insertion order; the copy is the same.
- Presence calls of several servers on one Redis, interleaved within a call; and a socket used by two users, which authentication excludes.
- `getPresenceStats`, which only reads; `getSocketMetadata` is a step of a presence run but not a method.
- The access token, the password and the cookie side of authentication.
- RefreshTokens.RotateTx: an `expires_at` that is no date is not modelled; the column is a timestamp and never null.
- SingleFlight.Interceptor.OnError: the resending of a request is a new request event; the promise a waiter holds is its number.
- A refresh that throws a falsy value, which would resolve the queue instead of rejecting it: `refreshSession` throws errors.
- SHA-256, base64 decoding and key formats: the digest is a parameter, keys are bytes.
- Prekey storage, rooms, users, statistics, the migrator, configuration and the user interface.
