# ABRT: models and proofs

ABRT detects crashes, keeps each as a problem directory and runs events on it.
This project models the parts of its daemons, hooks, D-Bus service and plug-ins
that carry state, and proves what they promise over all inputs and all runs.
`dafny verify dfyconfig.toml` checks everything.

| module | part of ABRT |
|---|---|
| `Abrtd`, `AbrtdState`, `PostCreateProtocol` | abrtd's queue of announced problems, the trimming of the dump location, and the protocol with any number of abrt-servers |
| `CoreDump`, `CorePattern` | the core dump hook: one stream into two files, expansion of core_pattern |
| `Koops`, `KoopsText`, `KoopsRecord` | extraction of kernel oopses from a log |
| `Session`, `SessionWorld` | authorization of Problems2 sessions by polkit and by tokens |
| `NewProblemTask` | life cycle of the NewProblem task and its temporary entry |
| `Limiter` | limit on new problems per user |
| `SaveElements` | size and count accounting while elements are saved |
| `OccurrenceRing` | the last crashed executables and the throttle |
| `TrimFiles` | trimming a directory to a size |
| `UploadWatch` | worker pool and queue for uploaded archives |
| `RequestFramer` | framing of requests to abrt-server |

Code that changes state is modelled by classes and loops that are proved equal
to functions on values; the results over whole runs are lemmas about those
functions. Where a run involves several parties (daemon and servers, sessions
and polkit, main loop and thread) it is a list of steps of a transition
relation.

## Where the code does not do what it is meant to

The code is modelled as it is. Each of these has a lemma with the exact
condition or a concrete input.

- MaxCrashReportsSize wraps at 4096 MiB, because the product is 32 bits wide: `Abrtd.TrimsOnlyAboveConfigured`.
- Suspicious lines can be in no report, although long enough for one: a line that ends the trace of another oops, one that follows within 40 lines of an oops without a trace, and everything in an oops whose trace does not end within 80 lines: `KoopsRecord.UnreportedExactly`, `Koops.LostExactly`, `KoopsText.SecondOopsIsLost`.
- Tokens that expire after 2^31 seconds since the epoch are refused at once: `Session.TokenLife`.
- A cancelled authorization request, answered late, takes back an authorization granted meanwhile: `SessionWorld.AuthorizationAtRisk`, `SessionWorld.CancelledRequestOutlivesGrant`.
- A problem that the daemon accepted is deleted when the task is cancelled after the answer and before its end: `NewProblemTask.AcceptedKeptExactly`, `NewProblemTask.AcceptedThenCancelled`.
- With a batch of 2^31 or more a granted request is reported as a failure: `Limiter.SpentIsAnswered`.
- A copy that fails and leaves another size is not accounted for, and lets the directory outgrow its limit when it leaves more: `SaveElements.TrackedExactly`, `SaveElements.LimitKeptExactly`.
- A name whose data are not stored uses up a place: `SaveElements.WastesExactly`.
- One bad handle spoils all later descriptors: `SaveElements.BadHandleSpoilsRest`, `SaveElements.GoodDescriptorInList`.
- A limit of zero is not unlimited for descriptors: `SaveElements.ZeroLimit`.
- Names and inodes of deleted files stay in the running size, so more is deleted than needed: `TrimFiles.TriedInVainExactly`, `TrimFiles.BothEmptyFilesGo`; empty files all go: `TrimFiles.EmptyFilesAllGo`.
- After a failed fork archives may wait beside a free worker and be overtaken: `UploadWatch.BusyLostExactly`, `UploadWatch.ForkFailureOvertakes`.
- An empty line at the very start of a request can be missed: `RequestFramer.ChunkingMatters`.

## Model

| member | source | states |
|---|---|---|
| `PostCreateProtocol.MutualExclusion` | src/daemon/abrt-server.c:336-382 | over every run of the daemon with any number of servers, at most one server that is not yet reaped was ever sent SIGUSR1, and at most one is past its wait |
| `PostCreateProtocol.NoLostWakeUp` | src/daemon/abrtd.c:127-154 | in every reachable state the queue has no duplicates, holds only tracked servers, and is headed by one that was continued and not yet reaped |
| `PostCreateProtocol.NextIsWoken` | src/daemon/abrtd.c:348-365 | reaping the running server continues the first one behind it that can be signalled; only those before that one leave the queue, and nobody else moves |
| `PostCreateProtocol.QueueDrains` | src/daemon/abrtd.c:348-365 | from any reachable state the k-th server in line, if it can be signalled, is continued after at most k reapings, each preceded by the exit of the running server, and nothing else; it is then where it was before, with the signal still to be taken if it waits |
| `PostCreateProtocol.HeadLeaves` | src/daemon/abrt-server.c:371-382 | the running server is reapable or becomes so by leaving |
| `PostCreateProtocol.WaitingServerActs` | src/daemon/abrt-server.c:336-382 | in every reachable state a waiting server can act iff it was continued or a SIGINT reached it; a continued one goes on to run post-create, an interrupted one leaves |
| `PostCreateProtocol.QueuedServerRuns` | src/daemon/abrtd.c:127-154 | from any reachable state the k-th server in line, if it waits and can be signalled, runs post-create after at most k exits and k reapings |
| `PostCreateProtocol.DeletedOwnersStopped` | src/daemon/abrtd.c:178-196 | in every reachable state, if no two of those that wait own the same directory, an announcement stops exactly those whose directory was deleted |
| `PostCreateProtocol.WaitingAccountedFor` | src/daemon/abrt-server.c:345-362 | in every reachable state the announcement of a waiting server can be read at once, or it was continued, waits in line or was dropped |
| `PostCreateProtocol.StoppedServerLeaves` | src/daemon/abrtd.c:110-113 | a server stopped by a trimming, if it can be signalled, gets its SIGINT, and leaves if it waits |
| `PostCreateProtocol.FirstComeFirstServed` | src/daemon/abrtd.c:213-225 | servers are continued in the order of their announcements; every announcement is continued, waiting or dropped, and a dropped one is neither of the others |
| `PostCreateProtocol.NeverBothSignals` | src/daemon/abrtd.c:110-113 | no server is ever sent both SIGUSR1 and SIGINT |
| `PostCreateProtocol.RunningDirectorySurvives` | src/daemon/abrtd.c:161-179 | trimming never deletes the directory of the server at the head of the queue |
| `PostCreateProtocol.SecondAnnouncementUnreachable` | src/daemon/abrtd.c:273-279 | the branch for a second announcement of the same server is never taken |
| `PostCreateProtocol.PhasesAdvance` | src/daemon/abrt-server.c:336-382 | a server prepares, waits until a signal arrives, then runs post-create or leaves; it is reaped after it exited, not before, and nobody else is removed |
| `PostCreateProtocol.ReadTrims` | src/daemon/abrtd.c:176-211 | with a size limit an announcement leaves the location below it or with nothing but the spared directory, and deletes nothing while it is below |
| `PostCreateProtocol.UnlimitedStopsNobody` | src/daemon/abrtd.c:163-164 | without a size limit an announcement stops nobody |
| `PostCreateProtocol.AcceptsWhileRoom` | src/daemon/abrtd.c:314-323 | the listening socket is watched iff fewer than ten servers are tracked, and never more are tracked |
| `PostCreateProtocol.PostCreateHappens` | src/daemon/abrt-server.c:345-382 | some run does lead to a server that runs post-create |
| `PostCreateProtocol.StepKeeps` | src/daemon/abrtd.c:228-292 | every step of daemon or server keeps the whole protocol invariant (agreement of queue, types, signals and announcement order) |
| `PostCreateProtocol.AnnouncesOnce` | src/daemon/abrt-server.c:245-262 | a server with an unread line is tracked, unnamed and not queued: it announces once |
| `Abrtd.WakeHeadEffect` | src/daemon/abrtd.c:132-153 | the wake-up loop drops exactly the leading servers that cannot be signalled and continues the first that can |
| `Abrtd.AnnounceEffect` | src/daemon/abrtd.c:158-226 | reading an announcement keeps the daemon invariant; processes run afterwards iff they ran before or are continued now; those stopped are exactly those that waited, or wanted to, and lose their place while another runs, and each owned a deleted directory |
| `Abrtd.RemoveEffect` | src/daemon/abrtd.c:348-375 | removing a reaped server keeps the daemon invariant, takes it out of every list, and stops nobody |
| `Abrtd.TrimOutcome` | src/daemon/abrtd.c:178-211 | trimming ends below the limit or with nothing left but the ignored directory; exactly the victims, all of which were there, are gone and the ignored one is not among them |
| `Abrtd.LimitWraps` | src/daemon/abrtd.c:177 | the limit is what was configured iff that is below 4096 MiB, and 4096 MiB more make no difference |
| `Abrtd.TotalAdds` | src/daemon/abrtd.c:178 | the size of a location is the sum of those of its directories |
| `Abrtd.BaseNameBehindSlash` | src/daemon/abrtd.c:166-174 | the ignored directory is named by what is behind the last slash |
| `Abrtd.FirstNamedIsFirst` | src/daemon/abrtd.c:190 | of several queued servers with the deleted directory the first one is meant |
| `Abrtd.TrimsOnlyAboveConfigured` | src/daemon/abrtd.c:177-179 | a directory is deleted although the location is below the configured limit in some state iff that limit is at least 4096 MiB |
| `Abrtd.TrimsAtLimit` | src/daemon/abrtd.c:178-179 | a location exactly at the limit is trimmed |
| `Abrtd.EvictEffect` | src/daemon/abrtd.c:183-196 | deleting one directory stops one of those that wait and own it, which loses its place, or nobody iff none of them owns it |
| `Abrtd.EvictStopsOwner` | src/daemon/abrtd.c:183-196 | whoever is stopped owned the deleted directory, and nobody is iff nobody waiting owned it |
| `Abrtd.EvictAllStopsOwners` | src/daemon/abrtd.c:178-211 | all in all only owners of deleted directories are stopped |
| `Abrtd.OwnersLosePlaces` | src/daemon/abrtd.c:176-211 | exactly the owners of deleted directories lose their places, if no two of those that wait own the same |
| `Abrtd.AnnounceStopsOwners` | src/daemon/abrtd.c:158-226 | the same for a whole announcement: exactly the owners of deleted directories are sent SIGINT |
| `AbrtdState.Daemon.WakeNext` | src/daemon/abrtd.c:132-153 | the loop over the list equals the specified wake-up |
| `AbrtdState.Daemon.SkipUnreachable` | src/daemon/abrtd.c:132-153 | servers at the head that cannot be signalled leave the queue one by one |
| `AbrtdState.Daemon.FindQueued` | src/daemon/abrtd.c:190 | finds the first queued server with that directory, or there is none |
| `AbrtdState.Daemon.EvictOwner` | src/daemon/abrtd.c:183-196 | the deleted directory costs its owner its place, and sends it SIGINT |
| `AbrtdState.Daemon.TrimOne` | src/daemon/abrtd.c:183-196 | one victim changes queue and signals as specified |
| `AbrtdState.Daemon.Trim` | src/daemon/abrtd.c:176-211 | the loop terminates and its victims are a run of the specified trimming |
| `AbrtdState.Daemon.QueuePostCreate` | src/daemon/abrtd.c:158-226 | queueing an announced server, with trimming and wake-up, equals the specified announcement |
| `AbrtdState.Daemon.ReadAnnouncement` | src/daemon/abrtd.c:271-284 | reading an announcement changes the daemon as specified |
| `AbrtdState.Daemon.AddProc` | src/daemon/abrtd.c:294-324 | a new server is tracked last, unnamed, and the socket is no longer watched at the maximum |
| `AbrtdState.Daemon.RemoveProc` | src/daemon/abrtd.c:348-375 | a reaped server is removed as specified, or nothing changes for an unknown child |
| `AbrtdState.Daemon.FindProc` | src/daemon/abrtd.c:350-352 | finds the tracked server with that pid, or there is none |
| `AbrtdState.Daemon.Detach` | src/daemon/abrtd.c:356-365 | a removed server hands on the post-create or leaves the queue |
| `AbrtdState.Daemon.UpdateWatch` | src/daemon/abrtd.c:370-374 | the socket is watched again iff there is room |
| `AbrtdState.FindLargest` | src/daemon/abrtd.c:178 | the scan returns the total and an existing directory other than the ignored one iff there is any |
| `CoreDump.DumpTwoCoreFiles` | src/hooks/abrt-hook-ccpp.c:589-676 | for any chunking the copy with the larger limit is exactly the first min(limit, length) bytes, unless splicing the stream fails; so is the other unless a call on its behalf fails; whatever fails, the second is a prefix of the first, the first of the stream, and neither passes its limit |
| `CoreDump.SplitStream` | src/hooks/abrt-hook-ccpp.c:624-676 | the copying loop, including closing the pipe pair midway; it dies iff splicing the stream failed, and gives up the second copy iff it has no pipe or a call on its behalf failed |
| `CoreDump.CopyChunk` | src/hooks/abrt-hook-ccpp.c:627-675 | one round: after it the state is again that of the loop, or the process dies because of a failed call, and the stream gets shorter unless the loop ends |
| `CoreDump.FillCopies` | src/hooks/abrt-hook-ccpp.c:627-641 | the pipe pair gets a part of what is at hand and stays open iff tee did not fail; the stream is at its end iff there was nothing |
| `CoreDump.WriteChunk` | src/hooks/abrt-hook-ccpp.c:643-671 | the first copy grows by exactly the bytes due, the second keeps step with it, unless a splice fails |
| `CoreDump.Pipe.SpliceFull` | src/hooks/abrt-hook-ccpp.c:534-551 | moves exactly min(size, available) bytes, or fails, iff a splice failed, with what was moved accounted for |
| `CoreDump.Pipe.Tee` | src/hooks/abrt-hook-ccpp.c:627-641 | the kernel duplicates any positive part of what is at hand, or fails, or is at the end |
| `CoreDump.Pipe.Splice` | src/hooks/abrt-hook-ccpp.c:539-545 | the kernel moves any positive part of what is asked, or fails, or is at the end |
| `CoreDump.SpliceChunk` | src/hooks/abrt-hook-ccpp.c:643-648 | the first copy grows by the next bytes of the stream |
| `CoreDump.TeeChunk` | src/hooks/abrt-hook-ccpp.c:652-664 | the second copy grows by bytes the first already has |
| `CoreDump.Duplicate` | src/hooks/abrt-hook-ccpp.c:650-671 | the second copy keeps step with the first until its own limit |
| `CoreDump.TakeExactly` | src/hooks/abrt-hook-ccpp.c:589-676 | a copy is due the whole stream up to its limit, and no more |
| `CorePattern.ExpandInPlace` | src/hooks/abrt-hook-ccpp.c:180-215 | the in-place rewriting at a moving index equals the recursive left-to-right substitution, and terminates |
| `CorePattern.ExpandNext` | src/hooks/abrt-hook-ccpp.c:184-214 | one round keeps the meaning of what is before and behind the index, and shortens what is behind |
| `CorePattern.ExpandsTokens` | src/hooks/abrt-hook-ccpp.c:180-215 | which parts are replaced depends on the pattern alone: substituted text is never expanded again |
| `CorePattern.UnknownVerbatim` | src/hooks/abrt-hook-ccpp.c:212-213 | patterns without a known specifier are copied verbatim |
| `CorePattern.SpecifierTable` | src/hooks/abrt-hook-ccpp.c:74 | the nine letters stand for the nine values in their order, and a doubled percent sign for itself |
| `CorePattern.SpecifierReplaced` | src/hooks/abrt-hook-ccpp.c:180-215 | behind text without percent signs a specifier is replaced by its value and the expansion goes on behind it |
| `Koops.Scan` | src/lib/kernel.c:373-539 | one pass over any lines, with look-ahead, jump, both cancel rules and the end-of-file flush, reports what the declarative cutting of the log into episodes reports |
| `Koops.ReportsInOrder` | src/lib/kernel.c:485-539 | every reported range lies inside the log, starts at a suspicious line, spans at most 81 lines, and ends before the next one begins |
| `Koops.TraceIsUniform` | src/lib/kernel.c:447-483 | every line behind the one that entered the trace has the trace shape, at least 8 characters and, for levels from 0 to 127, exactly the level of the line that entered it |
| `Koops.GoesOnExactly` | src/lib/kernel.c:444-494 | for levels from 0 to 127 a trace goes on through a line iff it has the trace shape, 8 characters, the level of the line before, and is no dump, marker or suspicious line |
| `Koops.LevelsKept` | src/lib/kernel.c:364 | levels are kept in a char: from -128 to 127 as they are, others modulo 256 |
| `Koops.LongestTrace` | src/lib/kernel.c:497-508 | a trace that lasts to the end of the log is reported iff the oops has at most 80 lines; otherwise everything in it is dropped, suspicious lines included |
| `Koops.TraceCloses` | src/lib/kernel.c:440-508 | a trace that ends within the log is reported iff it does so within 80 lines, with the line that ends it iff that is an instruction dump of its level |
| `Koops.SecondStart` | src/lib/kernel.c:509-519 | without any trace a second suspicious line is reported by itself iff it is more than 40 lines behind the first |
| `Koops.FarthestMarker` | src/lib/kernel.c:396-407 | an end marker closes an oops iff it is less than 50 lines behind its start, and is left out of it but for one case that the levels decide |
| `Koops.SkipSpacesExactly` | src/lib/kernel.c:383-384 | leading spaces are skipped, all of them and nothing else |
| `Koops.ReportsUnique` | src/lib/kernel.c:373-539 | there is one such report: it is fixed by the log alone |
| `Koops.ReadingUnique` | src/lib/kernel.c:373-539 | there is one way to cut a log into episodes |
| `Koops.EpisodeUnique` | src/lib/kernel.c:386-518 | what becomes of a suspicious line is determined by the lines behind it |
| `Koops.StartsUnlessUsed` | src/lib/kernel.c:386-390 | a suspicious line starts an oops iff no earlier episode used it up |
| `Koops.LostExactly` | src/lib/kernel.c:440-518 | a suspicious line is in no range the scanner records iff its episode is cancelled as too long, or has no trace and began with another line, or is closed by it and not by an instruction dump |
| `Koops.EpisodeLoses` | src/lib/kernel.c:485-518 | which lines of its own an episode does not record |
| `Koops.ReportFits` | src/lib/kernel.c:502-518 | an episode records lines inside itself only, at most 81 |
| `Koops.FindMarker` | src/lib/kernel.c:397-407 | finds the first end marker less than 50 lines ahead, or there is none |
| `Koops.BeforeTrace` | src/lib/kernel.c:413-437 | a line of an oops without a trace so far: it enters the trace, stays, or makes the oops a single line after 40 |
| `Koops.InTrace` | src/lib/kernel.c:440-508 | a line of an oops in its trace: it ends the oops, stays, or cancels it after 80 lines |
| `Koops.Jump` | src/lib/kernel.c:397-407 | with an end marker ahead the oops is closed there |
| `Koops.Starts` | src/lib/kernel.c:386-409 | a suspicious line outside any oops starts one |
| `Koops.OopsEnd` | src/lib/kernel.c:447-483 | where an oops ends as seen from a line, and iff it goes on |
| `KoopsText.SecondOopsIsLost` | src/lib/kernel.c:482-491 | a log in which an oops, long enough to be reported by itself, follows the trace of another: that one is recorded and reported, this one not |
| `KoopsText.ContainsExactly` | src/lib/kernel.c:161-177 | a string is found in a line iff the line is that string with something around it |
| `KoopsRecord.TextFits` | src/lib/kernel.c:38-53 | the joined text always fits the length computed beforehand, with room for its terminator |
| `KoopsRecord.Measure` | src/lib/kernel.c:38-40 | the length computed beforehand |
| `KoopsRecord.StpCpy` | src/lib/kernel.c:53-54 | appends a string and its terminator inside the buffer |
| `KoopsRecord.FindVersion` | src/lib/kernel.c:49-50 | the first version any line names |
| `KoopsRecord.Join` | src/lib/kernel.c:43-56 | joining in the fixed buffer stays inside it and yields the non-empty lines, each with a newline |
| `KoopsRecord.RecordOops` | src/lib/kernel.c:32-75 | a report is made iff the text is longer than 30 characters, headed by the first version found |
| `KoopsRecord.TextAdds` | src/lib/kernel.c:48-57 | the text of an oops is that of its lines one after the other, each non-empty one with a newline |
| `KoopsRecord.TextsAdd` | src/lib/kernel.c:58-63 | the texts are the reports on the recorded ranges, one after the other |
| `KoopsRecord.OneLineReport` | src/lib/kernel.c:58-63 | an oops of one line is reported iff that has 30 characters or more, as version, newline, line, newline |
| `KoopsRecord.FirstVersion` | src/lib/kernel.c:50-51 | the first line that names a version decides on it |
| `KoopsRecord.UnreportedExactly` | src/lib/kernel.c:32-75 | a suspicious line is in no report iff its episode loses it or records a text of 30 characters or fewer |
| `KoopsRecord.ExtractOopses` | src/lib/kernel.c:359-540 | the whole extraction: one report per reported range that is long enough, in order |
| `Session.TokenLife` | src/dbus/abrt_problems2_session.c:325-418 | a token of nonzero expiry is honoured by a peer iff that is of the same user, the expiry is not past, and it is below 2^31: expired ones are refused, and from 2038 on all |
| `Session.GeneratedExactly` | src/dbus/abrt_problems2_session.c:316-369 | a token is made iff the session is authorized and randomness and clock work, and leaves all other tokens alone |
| `Session.AnsweredExactly` | src/dbus/abrt_problems2_session.c:225-234 | an answer decides the session and takes the pending request off it, whichever it belongs to |
| `Session.RevokedFallsBack` | src/dbus/abrt_problems2_session.c:517-537 | revoking leaves every session but root's where it can ask again, with its tokens |
| `Session.LastSignalNames` | src/dbus/abrt_problems2_session.c:153-179 | the last signal names the state a session came to and, if that is no authorization, the one it came from |
| `Session.ReplyTellsState` | src/dbus/abrt_problems2_session.c:487-515 | the reply to an authorization request tells the state in which the session is left |
| `Session.Session.ChangeState` | src/dbus/abrt_problems2_session.c:145-189 | state and signal of a transition |
| `Session.Session.CheckAuthorizationCallback` | src/dbus/abrt_problems2_session.c:191-237 | the answer decides the session, whichever request it belongs to |
| `Session.Session.InitializeRequest` | src/dbus/abrt_problems2_session.c:239-291 | the session becomes pending on a new request |
| `Session.Session.constructor` | src/dbus/abrt_problems2_session.c:293-310 | sessions of uid 0 are born authorized |
| `Session.Session.GenerateToken` | src/dbus/abrt_problems2_session.c:312-372 | only an authorized session gets a token; failures change nothing |
| `Session.Session.RevokeToken` | src/dbus/abrt_problems2_session.c:374-378 | exactly the named token is gone |
| `Session.Session.AuthorizePeerWithToken` | src/dbus/abrt_problems2_session.c:380-430 | a grant happens iff the issuer is authorized, of the same user, and holds the token unexpired (`TokenLife`); it uses up the token |
| `Session.Session.Authorize` | src/dbus/abrt_problems2_session.c:437-515 | reply and effect on both sessions, for every combination of state and parameters |
| `Session.Session.RevokeAuthorization` | src/dbus/abrt_problems2_session.c:517-537 | root keeps its authorization; a pending request is cancelled |
| `Session.Session.GrantAuthorization` | src/dbus/abrt_problems2_session.c:539-558 | the session is authorized afterwards |
| `SessionWorld.AuthorizationHasRoot` | src/dbus/abrt_problems2_session.c:191-235 | over all sessions and runs, an authorized session of an ordinary user goes back to a positive polkit answer for that same user |
| `SessionWorld.TokensAreConserved` | src/dbus/abrt_problems2_session.c:366-430 | no token is redeemed twice or after being withdrawn; grants, withdrawals and outstanding tokens together are exactly the tokens generated |
| `SessionWorld.RedeemedOnce` | src/dbus/abrt_problems2_session.c:420-421 | a grant uses up a token of an authorized session of the same user, and nobody can present it again |
| `SessionWorld.PresentedInTime` | src/dbus/abrt_problems2_session.c:366-421 | whatever happens in between, a token presented after the end of its life changes nothing; until then it authorizes a session of the same user iff an authorized session still holds it and the end is below 2^31 |
| `SessionWorld.RepliesMatch` | src/dbus/abrt_problems2_session.c:437-487 | a request with bus and token is granted iff presenting the token authorizes the session, with neither it goes to polkit, with one of them it fails |
| `SessionWorld.SignalsTellState` | src/dbus/abrt_problems2_session.c:145-189 | folding the signals over the initial state gives the state of every session in every run; root's sessions are authorized and silent |
| `SessionWorld.StepAnnounced` | src/dbus/abrt_problems2_session.c:153-189 | whatever the step, a session that changes state adds exactly the signal of the transition: the unsupported branch is unreachable |
| `SessionWorld.PendingIsDecided` | src/dbus/abrt_problems2_session.c:258-290 | a pending session always has an outstanding request whose answer decides it |
| `SessionWorld.RevokeCancelsPending` | src/dbus/abrt_problems2_session.c:517-537 | in every run revoking cancels the request of a pending session and no other, and leaves root alone |
| `SessionWorld.LateAnswerDecides` | src/dbus/abrt_problems2_session.c:225-234 | after any outstanding answer the session it belongs to is authorized iff that answer was positive, whatever happened in between |
| `SessionWorld.AuthorizationAtRisk` | src/dbus/abrt_problems2_session.c:225-234 | in every run an authorized session can lose its authorization to an answer iff a request of its own is outstanding |
| `SessionWorld.CancelledRequestOutlivesGrant` | src/dbus/abrt_problems2_session.c:517-530 | a run in which a cancelled request is still to be answered when a later one has been granted, and takes the authorization away |
| `SessionWorld.RunKeeps` | src/dbus/abrt_problems2_session.c:145-558 | the invariant behind these results holds in every run |
| `SessionWorld.HeardInvertsAnnouncement` | src/dbus/abrt_problems2_session.c:154-179 | signals and transitions determine each other |
| `NewProblemTask.NoTemporaryEntryLeft` | src/dbus/abrt_problems2_task.c:181-268 | over every run, a task that is over keeps no temporary entry, a cancelled one none at all, and a done one its own completed entry iff it reports acceptance; entries never leak |
| `NewProblemTask.CancelledWhileRunning` | src/dbus/abrt_problems2_task.c:135-153 | a task cancelled while running can only become cancelled |
| `NewProblemTask.CancelIsFinal` | src/dbus/abrt_problems2_task.c:181-234 | once cancelled, running or over, nothing leads elsewhere |
| `NewProblemTask.CancelledCodeHidden` | src/dbus/abrt_problems2_task_new_problem.c:298-299 | the cancellation code, larger than the code for success, never surfaces: no task is done with the code FAILED |
| `NewProblemTask.AnswerDecides` | src/dbus/abrt_problems2_task_new_problem.c:163-272 | which daemon answers end a task as done, with which code, and which as failed, iff each way |
| `NewProblemTask.ResponseDecides` | src/dbus/abrt_problems2_task_new_problem.c:163-272 | a done task gives back its own entry, the one it duplicates, or none, and keeps an entry iff that is its own |
| `NewProblemTask.CreationDecides` | src/dbus/abrt_problems2_task_new_problem.c:117-161 | in every reachable state an entry is made iff the limiter allows it and saving and registering work; else the task fails, or ends cancelled if that was asked for; a task with an entry goes on to the daemon |
| `NewProblemTask.CheckDecides` | src/dbus/abrt_problems2_task_new_problem.c:297-307 | with a fresh entry a task goes on to the daemon iff it is neither cancelled nor to wait; one that is to wait stops and keeps its temporary entry |
| `NewProblemTask.RequestsDecide` | src/dbus/abrt_problems2_task.c:135-153 | in every reachable state only new and stopped tasks start, and cancelling changes running and stopped ones only: the latter lose their entry at once |
| `NewProblemTask.AnnouncedWhenNew` | src/dbus/abrt_problems2_task.c:81-93 | a status is announced iff it is new, and nothing else changes |
| `NewProblemTask.AcceptedKeptExactly` | src/dbus/abrt_problems2_task.c:202-223 | an accepted problem keeps its completed entry iff the task is not cancelled by the time it is finished |
| `NewProblemTask.AcceptedThenCancelled` | src/dbus/abrt_problems2_task_new_problem.c:54-79 | a run in which the cancel comes after the daemon accepted the problem, and the completed entry is deleted |
| `NewProblemTask.StatusesFollowLifeCycle` | src/dbus/abrt_problems2_task.c:81-93 | the announced statuses form a path of the life cycle ending in the present one |
| `NewProblemTask.RunKeeps` | src/dbus/abrt_problems2_task_new_problem.c:274-334 | the invariant behind these results holds in every run, the thread interleaved with start, cancel and finish |
| `NewProblemTask.Task.ChangeStatus` | src/dbus/abrt_problems2_task.c:81-93 | announces a status iff it changes |
| `NewProblemTask.Task.RemoveTemporaryEntry` | src/dbus/abrt_problems2_task_new_problem.c:54-73 | the entry is unregistered even when its directory cannot be deleted |
| `NewProblemTask.Task.CheckCancelled` | src/dbus/abrt_problems2_task.c:128-133 | cancelled by its cancellable or by its status |
| `NewProblemTask.Task.CancelTask` | src/dbus/abrt_problems2_task.c:135-153 | effect of cancelling in every status; it fails iff the task is not cancelled afterwards |
| `NewProblemTask.Task.StartTask` | src/dbus/abrt_problems2_task.c:288-315 | starts new and stopped tasks only |
| `NewProblemTask.Task.CreateEntry` | src/dbus/abrt_problems2_task_new_problem.c:282-296 | creates the temporary entry unless the task already has one, the limiter refuses, or saving or registering fails |
| `NewProblemTask.Task.CheckCreated` | src/dbus/abrt_problems2_task_new_problem.c:298-308 | leaves the run for a cancelled task or one that is to wait |
| `NewProblemTask.Task.NotifyDirectory` | src/dbus/abrt_problems2_task_new_problem.c:163-272 | effect of every daemon answer on entry, response and code |
| `NewProblemTask.Task.FinishGtask` | src/dbus/abrt_problems2_task.c:181-268 | effect of every returned code |
| `NewProblemTask.Task.FinishTask` | src/dbus/abrt_problems2_task.c:155-179 | results are given out iff the task is done or failed |
| `Limiter.RateBound` | src/dbus/abrt_problems2_service.c:2734-2764 | in any stretch of time any run grants at most the batch plus one problem per 2^magnitude seconds |
| `Limiter.RefusedExactly` | src/dbus/abrt_problems2_service.c:2741-2764 | for batches below 2^31 a considered request is refused iff no credit is left and 2^magnitude seconds have not passed; otherwise the answer is between 1 and the batch |
| `Limiter.AnswerExactly` | src/dbus/abrt_problems2_service.c:2703-2765 | for batches below 2^31: the failures in their order and with their numbers, without effect; else after k whole periods the answer is the least of credit + k and batch, one of which is spent |
| `Limiter.WrappedCreditLost` | src/dbus/abrt_problems2_service.c:2747-2757 | a sum of exactly 2^32 counts as no credit |
| `Limiter.BurstGranted` | src/dbus/abrt_problems2_service.c:2747-2764 | of n requests at one moment the least of n, batch, and credit and accrual together are granted |
| `Limiter.PatientAlwaysGranted` | src/dbus/abrt_problems2_service.c:2741-2764 | who waits a period before each request is never refused |
| `Limiter.RunRecorded` | src/dbus/abrt_problems2_service.c:2763-2764 | after any run the time on record is that of the last grant |
| `Limiter.PeriodDoubles` | src/dbus/abrt_problems2_service.c:2743 | the period is two to the power of the magnitude |
| `Limiter.SpentIsAnswered` | src/dbus/abrt_problems2_service.c:2764 | spent credit is answered by a positive number in every state iff the batch is below 2^31 |
| `Limiter.CreditBounds` | src/dbus/abrt_problems2_service.c:2745-2764 | from any state only its credit and what accrues is granted |
| `Limiter.After` | src/dbus/abrt_problems2_service.c:2747-2749 | the credit never exceeds the batch |
| `Limiter.UserCanCreateNewProblem` | src/dbus/abrt_problems2_service.c:2703-2765 | counters and answer for every user, clock and configuration |
| `SaveElements.SizeStaysWithinLimit` | src/dbus/abrt_problems2_entry.c:673-696 | with a size limit, any list of elements whose failing copies leave no item larger than it was keeps the directory within the larger of its former size and the limit |
| `SaveElements.SizeAccounted` | src/dbus/abrt_problems2_entry.c:620-810 | for any list and any copies the real size is the running size and the bytes that were not counted |
| `SaveElements.TrackedExactly` | src/dbus/abrt_problems2_entry.c:782-809 | the running size is exact throughout iff every failing copy that is passed over leaves its item at the size it had |
| `SaveElements.LimitKeptExactly` | src/dbus/abrt_problems2_entry.c:780-796 | once a failing copy is passed over, every harmless rest of the list keeps the limit iff the copy did not leave its item larger than it was |
| `SaveElements.FatalErrorsAreSafe` | src/dbus/abrt_problems2_entry.c:786-794 | where input and output errors are fatal every list keeps the limit |
| `SaveElements.OneAccounted` | src/dbus/abrt_problems2_entry.c:570-827 | one element changes real and running size alike, but for what a failing or cut off copy leaves |
| `SaveElements.ResidueBreaksLimit` | src/dbus/abrt_problems2_entry.c:780-796 | for every limit two elements fill the directory to twice the limit |
| `SaveElements.CountStaysWithinLimit` | src/dbus/abrt_problems2_entry.c:588-603 | items never exceed the larger of their former number and the limit; the running count is the real one plus the names counted and then refused |
| `SaveElements.WastesExactly` | src/dbus/abrt_problems2_entry.c:588-603 | an element uses up a place for nothing iff its name is new, there is room for it, and its data are not stored |
| `SaveElements.RefusedElementTakesPlace` | src/dbus/abrt_problems2_entry.c:588-603 | a list in which a refused element keeps a small one out of an empty directory |
| `SaveElements.DataNeverTruncated` | src/dbus/abrt_problems2_entry.c:625-699 | data elements are stored in full or not at all; only descriptors are cut off |
| `SaveElements.DataStoredExactly` | src/dbus/abrt_problems2_entry.c:673-696 | admitted and allowed data replace the item iff there is no size limit, they are no more than it, or the directory stays within the limit; otherwise nothing changes |
| `SaveElements.LastFittingDecides` | src/dbus/abrt_problems2_entry.c:570-699 | in a list the last data of a name that fit when their turn comes are what the item is afterwards |
| `SaveElements.DescriptorStoredExactly` | src/dbus/abrt_problems2_entry.c:754-810 | a descriptor is stored in full if the limit allows, else up to the limit, or up to what the item had where the others are past the limit; when that is fatal |
| `SaveElements.FailsExactly` | src/dbus/abrt_problems2_entry.c:570-827 | every way in which an element ends the loop, with the number returned; those that are no copy leave the directory alone |
| `SaveElements.BadHandleSpoilsRest` | src/dbus/abrt_problems2_entry.c:734-752 | after one bad handle, in any list, an item that comes by descriptor is left as it was |
| `SaveElements.GoodDescriptorStoredExactly` | src/dbus/abrt_problems2_entry.c:734-810 | a valid, non-blocking descriptor that can be copied is stored, up to its bound, iff no error is on record |
| `SaveElements.ErrorRecordedExactly` | src/dbus/abrt_problems2_entry.c:734-752 | in a loop that goes on an error is on record after an element iff it was before or the handle is bad |
| `SaveElements.GoodDescriptorInList` | src/dbus/abrt_problems2_entry.c:734-810 | in a list saved from a fresh start a good descriptor whose turn comes is stored, up to its bound, iff no handle before it was bad |
| `SaveElements.ErrorsOfList` | src/dbus/abrt_problems2_entry.c:734-752 | after any list that is gone through an error is on record iff one was or some handle was bad |
| `SaveElements.BadHandlesSeen` | src/dbus/abrt_problems2_entry.c:734-752 | without a limit on their number the bad handles are those that can be seen on the list itself |
| `SaveElements.ZeroLimit` | src/dbus/abrt_problems2_entry.c:754-756 | with a size limit of zero a descriptor is cut off at the former size of its item, or at nothing where that is all the directory holds, and stored in full iff it fits that; data are stored in full |
| `SaveElements.Saver.PutData` | src/dbus/abrt_problems2_entry.c:658-696 | data replace the item, whatever its size was, or are refused, as specified (`DataStoredExactly`) |
| `SaveElements.Saver.PutDescriptor` | src/dbus/abrt_problems2_entry.c:754-810 | a descriptor is copied up to its bound, with its error paths, as specified (`DescriptorStoredExactly`) |
| `SaveElements.Saver.PutHandle` | src/dbus/abrt_problems2_entry.c:698-778 | checks before a descriptor is copied, each with its error path |
| `SaveElements.DumpDir.CopyFd` | src/dbus/abrt_problems2_entry.c:780-781 | at most the bound is stored, or the copy fails |
| `SaveElements.Saver.PutElement` | src/dbus/abrt_problems2_entry.c:570-827 | one element: every lookup result, type and error path |
| `SaveElements.SaveElementsInDumpDir` | src/dbus/abrt_problems2_entry.c:530-844 | the loop equals the specified saving, with its return value and recorded error |
| `OccurrenceRing.LookupIsLatest` | src/plugins/abrt-dump-journal-core.c:115-134 | the lookup knows the latest stamp of an executable iff fewer than eight insertions followed its own, and else nothing |
| `OccurrenceRing.ThrottleHolds` | src/plugins/abrt-dump-journal-core.c:410-439 | two saved crashes of an executable that stayed on record are at least the throttle apart |
| `OccurrenceRing.DueExactly` | src/plugins/abrt-dump-journal-core.c:412-434 | a crash is due iff its executable's recorded crash, if any, is a throttle ago |
| `OccurrenceRing.SavedWhenDue` | src/plugins/abrt-dump-journal-core.c:392-448 | every saved crash was due |
| `OccurrenceRing.SavedExactly` | src/plugins/abrt-dump-journal-core.c:410-447 | in any run a crash is saved iff it is due and saving works |
| `OccurrenceRing.LastEightKnown` | src/plugins/abrt-dump-journal-core.c:115-134 | of different executables the last eight are known, with their stamps, and no others |
| `OccurrenceRing.AfterMatches` | src/plugins/abrt-dump-journal-core.c:137-169 | after any updates the list holds the newest eight inserted executables, each once, with its latest stamp |
| `OccurrenceRing.RingInserted` | src/plugins/abrt-dump-journal-core.c:160-168 | overwriting the slot at the head drops the oldest of eight and puts the new entry first |
| `OccurrenceRing.RingRestamped` | src/plugins/abrt-dump-journal-core.c:151-156 | updating a slot changes that entry only and keeps its place |
| `OccurrenceRing.OccurrenceQueue.GetLastOccurrence` | src/plugins/abrt-dump-journal-core.c:115-134 | the backward walk in the ring equals the lookup in the list |
| `OccurrenceRing.OccurrenceQueue.Find` | src/plugins/abrt-dump-journal-core.c:121-131 | the backward walk ends at the newest entry of the executable, or finds none |
| `OccurrenceRing.OccurrenceQueue.Insert` | src/plugins/abrt-dump-journal-core.c:160-168 | the slot at the head is overwritten and the head moves on |
| `OccurrenceRing.OccurrenceQueue.UpdateOccurrence` | src/plugins/abrt-dump-journal-core.c:137-169 | the ring is updated as the list is |
| `OccurrenceRing.OccurrenceQueue.WatchCores` | src/plugins/abrt-dump-journal-core.c:392-448 | a crash is saved and recorded iff it is due and saving works |
| `TrimFiles.HoldsHeaviest` | src/plugins/abrt-action-trim-files.c:36-68 | after any scan the list is sorted and holds the min(128, n) heaviest of the files offered |
| `TrimFiles.RunningBoundsRest` | src/plugins/abrt-action-trim-files.c:191-198 | in a pass the running size is an upper bound of what is left in the tree |
| `TrimFiles.PassTakesHeaviest` | src/plugins/abrt-action-trim-files.c:186-201 | what a pass has tried weighs at least as much as every candidate of the whole tree it has not tried |
| `TrimFiles.OlderGoesFirst` | src/plugins/abrt-action-trim-files.c:118-125 | no pass tries a file while it leaves one of the tree that takes as much room and is older by a minute or more and at least two minutes old |
| `TrimFiles.CostlierGoesFirst` | src/plugins/abrt-action-trim-files.c:118-125 | no pass tries a file while it leaves one of the same age that takes more room |
| `TrimFiles.WeightExactly` | src/plugins/abrt-action-trim-files.c:118-122 | a file of k minutes weighs k times its kilobytes, but at least once |
| `TrimFiles.OneEntry` | src/plugins/abrt-action-trim-files.c:90-126 | what a scan makes of each kind of entry: the room charged for it, and the candidate, unless preserved |
| `TrimFiles.EntriesAdd` | src/plugins/abrt-action-trim-files.c:84-129 | size and candidates of a directory are those of its entries, one by one |
| `TrimFiles.FileIsCandidate` | src/plugins/abrt-action-trim-files.c:107-125 | every file at any depth that is not preserved is a candidate, with the time read in its own directory |
| `TrimFiles.ContainsExactly` | src/plugins/abrt-action-trim-files.c:88-105 | a path is in the tree iff it is that of a file in one of its directories |
| `TrimFiles.RunningExactly` | src/plugins/abrt-action-trim-files.c:194-198 | the running size is the size less the bytes of the files unlinked |
| `TrimFiles.PassSparesPreserved` | src/plugins/abrt-action-trim-files.c:109-116 | a pass deletes no preserved file |
| `TrimFiles.RemovedExactly` | src/plugins/abrt-action-trim-files.c:195 | deleting takes away the named files and nothing else |
| `TrimFiles.StopsOnce` | src/plugins/abrt-action-trim-files.c:190 | the stopping rule determines how many files a pass tries |
| `TrimFiles.EmptyFilesAllGo` | src/plugins/abrt-action-trim-files.c:198 | over the cap, a pass whose victims are all empty tries every one of them |
| `TrimFiles.RemovedFreesExactly` | src/plugins/abrt-action-trim-files.c:100-105 | deleting frees exactly sizes, names and inodes of the files deleted |
| `TrimFiles.TriedInVainExactly` | src/plugins/abrt-action-trim-files.c:190-198 | a file is tried although the tree already fits iff the true size is at or below the cap and the running one, which leaves names and inodes in, is above it |
| `TrimFiles.BothEmptyFilesGo` | src/plugins/abrt-action-trim-files.c:190-198 | at any time a directory of two new, empty files of which one would do loses both |
| `TrimFiles.PassesDelete` | src/plugins/abrt-action-trim-files.c:173-202 | all passes together delete no preserved file, and nothing where the tree fits from the start |
| `TrimFiles.PreservedSurvive` | src/plugins/abrt-action-trim-files.c:109-116 | a preserved file is there afterwards iff it was there before |
| `TrimFiles.InsertNameAndSizes` | src/plugins/abrt-action-trim-files.c:36-68 | insertion into the bounded sorted list |
| `TrimFiles.GetDirSize` | src/plugins/abrt-action-trim-files.c:70-133 | the recursive scan returns the size of the tree and the heaviest of all files found so far |
| `TrimFiles.OfferFile` | src/plugins/abrt-action-trim-files.c:107-126 | a file joins the list unless it is to be preserved |
| `TrimFiles.FileSystem.Unlink` | src/plugins/abrt-action-trim-files.c:195 | the file is gone, or nothing changes |
| `TrimFiles.FileSystem.DeleteWorst` | src/plugins/abrt-action-trim-files.c:186-201 | a pass deletes heaviest first, each file only while the running size is above the cap |
| `TrimFiles.FileSystem.TrimOnce` | src/plugins/abrt-action-trim-files.c:175-202 | one scan ends the trimming iff the tree fits or has no candidate, and is followed by one pass otherwise |
| `TrimFiles.FileSystem.DeleteFiles` | src/plugins/abrt-action-trim-files.c:168-203 | the tree is the outcome of at most 99 passes, each above the cap, over the heaviest files of the tree it met, up to where the stopping rule says; fewer than 99 iff a scan found the tree to fit or nothing to delete; preserved files stay |
| `UploadWatch.PoolConserves` | src/daemon/abrt-upload-watch.c:73-143 | over every run workers and queue stay within bounds, and every arrival not omitted is exactly one of started, queued and lost |
| `UploadWatch.ArrivalDecides` | src/daemon/abrt-upload-watch.c:103-122 | in every reachable state an arrival is omitted iff all workers are busy and the queue is full, gets the free worker if there is one, and waits otherwise |
| `UploadWatch.WorkersCounted` | src/daemon/abrt-upload-watch.c:72-101 | over every run each archive handed out has a worker until that is reaped, and arrivals are recorded in their order |
| `UploadWatch.FirstComeFirstServed` | src/daemon/abrt-upload-watch.c:103-143 | when all forks succeed nothing waits beside a free worker and archives start in arrival order |
| `UploadWatch.BusyLostExactly` | src/daemon/abrt-upload-watch.c:73-87 | a step leaves archives waiting beside a free worker iff a fork fails for the first of at least two that wait |
| `UploadWatch.ForkFailureOvertakes` | src/daemon/abrt-upload-watch.c:73-143 | such a run: one archive is lost, one is stranded, a later one overtakes it |
| `UploadWatch.QueueDrains` | src/daemon/abrt-upload-watch.c:191-196 | as many reaps as stand before it start a queued archive |
| `UploadWatch.Queue.Push` | src/daemon/abrt-upload-watch.c:37-46 | refuses iff full, else joins at the head |
| `UploadWatch.Queue.Pop` | src/daemon/abrt-upload-watch.c:48-55 | gives out the oldest |
| `UploadWatch.Process.RunUploadHandler` | src/daemon/abrt-upload-watch.c:72-101 | a worker more, or an archive lost |
| `UploadWatch.Process.HandleNewPath` | src/daemon/abrt-upload-watch.c:103-122 | run, queue or omit |
| `UploadWatch.Process.ProcessNextInQueue` | src/daemon/abrt-upload-watch.c:131-143 | the oldest queued archive gets a worker |
| `UploadWatch.Process.HandleChild` | src/daemon/abrt-upload-watch.c:193-196 | a reaped worker is replaced from the queue |
| `RequestFramer.ReadRequest` | src/daemon/abrt-server.c:880-1027 | header and messages of a request depend on the bytes and the place the search starts from, not on the reads; too long streams are refused |
| `RequestFramer.FramedIsWhole` | src/daemon/abrt-server.c:917-960 | a framed request is the whole stream: header, empty line with or without carriage return, and the body the messages come from |
| `RequestFramer.EndsAtExactly` | src/daemon/abrt-server.c:917-932 | a header ends where the bytes go on with two newlines, or with a carriage return between them |
| `RequestFramer.ChunkingIndependent` | src/daemon/abrt-server.c:892-1026 | two ways to read the same bytes give the same request, unless one splits an empty line at the very start |
| `RequestFramer.ChunkingMatters` | src/daemon/abrt-server.c:914-916 | the header end found is the first one iff it is not such a split empty line |
| `RequestFramer.ReadHeader` | src/daemon/abrt-server.c:892-934 | the header loop: buffer and unread chunks are the stream, and the first end is found whatever the reads |
| `RequestFramer.NextRead` | src/daemon/abrt-server.c:914-916 | resuming two bytes before the new data misses nothing |
| `RequestFramer.Search` | src/daemon/abrt-server.c:917-932 | the first empty line behind the start, or none |
| `RequestFramer.ReadBody` | src/daemon/abrt-server.c:989-1027 | exactly the terminated messages of the body, in order, however it is read; too long iff the total exceeds the cap |
| `RequestFramer.TakeMessages` | src/daemon/abrt-server.c:998-1007 | all complete messages at the front of the buffer |
| `RequestFramer.MessagesRoundTrip` | src/daemon/abrt-server.c:998-1007 | writing messages with terminators and reading them back is the identity |
| `RequestFramer.BodyRoundTrip` | src/daemon/abrt-server.c:998-1007 | a body is its messages and an unterminated rest |

## Left out

- D-Bus registration and marshalling, GTK and command-line programs, polkit calls, SELinux, capabilities, /proc, rpm, docker and gdb: input, output and foreign calls without an invariant of their own.
- Logging, memory release, pidfiles, daemonization, idle timeouts, signal-handler safety, token randomness.
- The functions of libreport are not part of this model. Assumed of them: deleting a directory succeeds and takes away exactly its size, the search for the largest directory never returns the ignored one, a bounded copy stores at most its bound even when it fails, saving data succeeds or ends the process, names are looked up as stored.
- GLib is not part of this model. Assumed of it: a GTask whose cancellable is cancelled, or that returned an error, yields -1.
- abrtd: lines a server writes that are not announcements, which are only logged; failing accept or fork, which changes nothing; children that stop without exiting; the end of the main loop.
- abrt-server: other lines on its standard error that begin like an announcement, which only `emit_new_problem_signal` is taken to write; signals sent by anybody but abrtd; the write of the announcement failing; what post-create itself does once it runs.
- dump_two_core_files: its return flags, which compare pointers; sizes beyond 2^64.
- Kernel log: splitting a buffer into lines and skipping levels and time stamps; hashing of oopses; lines without text pointer. The ARM regular expression is written out as a predicate.
- `KoopsRecord.RecordOops`: the version of a line is a parameter, because its extraction is a search of its own.
- Sessions are never closed in `SessionWorld`; the objects of one session leave the destruction of it out as well.
- The limiter is sequential, as it is not locked across task threads; shifts by 64 bits or more are undefined and excluded; the number of a user's problems is a counter that only grows.
- Reading elements back, whose budget check is local to one loop.
- The journal throttle: the abort in verbose mode when the clock goes backwards; seconds since the epoch are not wrapped at 32 bits.
- Trimming of whole problem directories by abrt-action-trim-files, which is libreport's; rounding of doubles; files appearing while a pass runs; the size of `struct stat` is taken to be 144.
- The upload watcher's start-up, inotify filtering and statistics.
- Requests: the analysis of the request line and of each message's key and value; reads that fail or time out end the process.
