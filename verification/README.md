# CloudOS desktop: verified models of its protocols and state machines

This project models the parts of the CloudOS desktop that carry its hardest promises and proves
those promises for all inputs, all runs and all interleavings:

- **ConPTY manager** - quoting of process arguments (`WindowsArgv`), cutting a terminal's byte stream
  at UTF-8 boundaries (`Utf8Stream`), the bounded event queue (`EventQueue`).
- **WSL core channel** - big-endian numbers (`ByteOrder`), length-prefixed framing (`Framing`), the
  sequenced protected channel (`SecureChannel`), key expansion (`Hkdf`).
- **Native supervisor** - the restart loop of version 11 (`Supervisor`), its re-implementation in
  version 22 with crash window and state trace (`SupervisorV22`), the heartbeat watchdog (`Watchdog`),
  the reader of the shared health block (`HealthSnapshot`).
- **Bootstrapper** - the crash-loop policy and the restart loop (`Bootstrap`), distribution channels
  and rollback (`Distribution`).
- **Installer** - the checks on artifacts and capabilities (`Installer`), all interleavings of the tasks
  that use them (`InstallerRuns`), the objects that carry them out (`InstallerService`).
- **Window registry** - JSON values and a reader (`Json`), the printer of window records (`WindowRecord`).

`Common` holds what several modules share. `dafny verify dfyconfig.toml` checks the whole project.

What Windows, the file system, the network, the clock and the user do is a parameter with an arbitrary
value, so "for all parameters" is "whatever the environment does". AES-GCM, HMAC-SHA-256 and the JSON
serializer of .NET are function-valued parameters; the laws assumed of them are the predicates
`AddsTag`, `OpensWhatItSealed`, `DecodesWhatItEncoded` and `IsHmac`. That nobody without the key can
make a frame is assumed of the bytes that the network offers, not of the function (`NoForgery`);
`LawsAgree` shows that these assumptions can hold together.

Code that updates state step by step is modelled by classes and by methods with loops; each is proved
against a specification function or an outright property, and the theorems over whole runs are about
those functions.

## Findings

- **The crash window of version 22 never decides.** Its deque never holds more failures than the
  failure counter counts, so `crash_loop` implies `failure_count >= maximum_failures`; both supervisor
  versions end every run at the same turn, whatever the clock does (`RunBoth`).
- **Quoting survives everything but a NUL.** The round trip through CommandLineToArgvW holds if and
  only if no argument contains a NUL (`QuoteRoundTrip`).
- **An accepted health snapshot may be torn.** The returned copy is checked up to its own sequence
  field only; the fields after it, the heartbeat among them, may stem from a later update
  (`AcceptedMayBeTorn`). The copy is one published update if and only if none of those fields changed
  after the sequence number was copied (`AtomicIffUnchanged`), for instance because the writer is still
  quiet when the last field is (`AtomicIfQuiet`).
- **A failed post loses evicted events.** When PostMessage fails for an exit event, the exit is taken
  back but the older events evicted for it are not restored (`FailedPostLoses`). The queue is restored
  if and only if nothing had to be evicted (`FailedPostIsUndone`).
- **A channel with an empty name is not protected.** The confirmed channel changes only along
  requested edges of the policies in force if and only if none of these has a channel with an empty name
  (`ChannelsChangeByRequest`).
- **A second rollback may return to the version just abandoned.** Without a healthy run in between, and
  unless the first rollback reinstalled what was running, it does if and only if the update manager
  reported the running version at the first rollback; otherwise it repeats the first
  (`SecondRollback`, with runs of both kinds in `RollbackReturnsOrRepeats`).
- **A version that never ran may be marked healthy.** An update is recorded before it is applied. If
  applying it throws, the next stable run of the old version marks the new one healthy
  (`OtherVersionMarkedHealthy`). This happens if and only if applying the newest recorded version threw
  and another one went on to run (`HealthyIsWhatRan`).
- **A write after an interrupted one takes its sequence number.** The sequence advances only when a
  write completes (`RetryTakesSameNumber`). No number is used twice if and only if no write that gets to
  sealing follows an interrupted one (`SealedOnceUnlessRetried`).
- **Staging may be left behind.** The directory for logs is made after the staging directory and before
  the handler that would delete it; exactly when that fails, the staging stays (`LeftBehind`).

## Model

| member | source | states |
|---|---|---|
| WindowsArgv.QuoteWindowsArgument | desktop/CloudOS.FlutterShell/native_bridge/cloudos_conpty_manager.cpp:46-77 | the loop computes the quoted form, and splitting that form alone gives exactly the one argument, under three readings of doubled quotes; an argument without white space or quotes is left alone, every other one gets quotes |
| WindowsArgv.SplitQuotedThen | desktop/CloudOS.FlutterShell/native_bridge/cloudos_conpty_manager.cpp:46-77 | a quoted argument is read back as itself and does not change how what follows it is split |
| WindowsArgv.QuoteRoundTrip | desktop/CloudOS.FlutterShell/native_bridge/cloudos_conpty_manager.cpp:45-77 | quoting, joining with spaces and splitting returns the argument list if and only if no argument holds a NUL |
| WindowsArgv.JoinInjective | desktop/CloudOS.FlutterShell/native_bridge/cloudos_conpty_manager.cpp:46-77 | different argument lists never give the same command line |
| WindowsArgv.WslArguments | desktop/CloudOS.FlutterShell/native_bridge/cloudos_conpty_manager.cpp:313-331 | the shell receives the distribution name as the one argument after -d, and nothing else changes, exactly when the name has no NUL |
| Utf8Stream.CompleteUtf8PrefixLength | desktop/CloudOS.FlutterShell/native_bridge/cloudos_conpty_manager.cpp:117-152 | for any bytes it holds back at most three and exactly the incomplete character, if any, at the end; on what has arrived of a valid stream it finds the longest valid prefix |
| Utf8Stream.IncompleteExactly | desktop/CloudOS.FlutterShell/native_bridge/cloudos_conpty_manager.cpp:117-152 | what is held back of any bytes, valid or not, in ranges of byte values |
| Utf8Stream.CutIsLongest | desktop/CloudOS.FlutterShell/native_bridge/cloudos_conpty_manager.cpp:117-152 | a cut before the incomplete tail is the longest valid prefix in the sense of section 4 of RFC 3629 |
| Utf8Stream.ReaderLoop | desktop/CloudOS.FlutterShell/native_bridge/cloudos_conpty_manager.cpp:445-483 | for every way the stream is cut into reads nothing is lost, repeated or reordered, at most three bytes wait after a read, every read hands over as much as validity allows, and on a valid stream every chunk is valid wherever the reader stops, but for the rest of an unfinished character that is flushed last |
| EventQueue.Manager.QueuePlatformEvent | desktop/CloudOS.FlutterShell/native_bridge/cloudos_conpty_manager.cpp:540-601 | the counter stays the sum of the queued sizes and both bounds hold; the new queue and the result for every kind of event, window and post |
| EventQueue.Manager.DrainPlatformEvents | desktop/CloudOS.FlutterShell/native_bridge/cloudos_conpty_manager.cpp:603-641 | hands the whole queue in order to the channel, or to nobody if none is set, and leaves it empty with a zero counter |
| EventQueue.Manager.ClearPlatformWindow | desktop/CloudOS.FlutterShell/native_bridge/cloudos_conpty_manager.cpp:181-194 | empties queue and counter |
| EventQueue.RunKeeps | desktop/CloudOS.FlutterShell/native_bridge/cloudos_conpty_manager.cpp:540-610 | after any run: within both bounds; evicted plus queued is what was accepted since the queue was last emptied; every event ever accepted was delivered, dropped or is queued |
| EventQueue.QueueIsBounded | desktop/CloudOS.FlutterShell/native_bridge/cloudos_conpty_manager.cpp:154-159 | after any run at most 256 events and 2,097,152 bytes of session ids and data, with 5 bytes for each event, are queued |
| EventQueue.DataAcceptedExactly | desktop/CloudOS.FlutterShell/native_bridge/cloudos_conpty_manager.cpp:561-600 | in every run a data event is queued if and only if there is a live window, the post succeeds, fewer than 256 events are queued and their bytes with it are at most 2,097,152; otherwise nothing changes |
| EventQueue.ExitAcceptedExactly | desktop/CloudOS.FlutterShell/native_bridge/cloudos_conpty_manager.cpp:563-600 | in every run a posted exit event is queued if and only if it has at most 2,097,152 bytes itself, and evicts the oldest events one by one only while there is no room |
| EventQueue.DataNeverEvicts | desktop/CloudOS.FlutterShell/native_bridge/cloudos_conpty_manager.cpp:583-590 | without an exit event since the queue was last emptied, all that was accepted is queued |
| EventQueue.ExitIsObservable | desktop/CloudOS.FlutterShell/native_bridge/cloudos_conpty_manager.cpp:568-641 | after any run, an exit event that fits and is posted reaches the next drain, right behind the longest suffix of the queue that left it room, whatever data events come in between |
| EventQueue.FailedPostIsUndone | desktop/CloudOS.FlutterShell/native_bridge/cloudos_conpty_manager.cpp:568-601 | in every run, a queue operation whose post fails leaves the queue as it was if and only if it had nothing to evict; otherwise exactly the evicted events are lost and nothing is accepted |
| EventQueue.FailedPostLoses | desktop/CloudOS.FlutterShell/native_bridge/cloudos_conpty_manager.cpp:592-599 | a run of 256 data events and one exit whose post fails, after which one event is lost and no exit is queued |
| Framing.ReadExactly | desktop/CloudOS.WslCore/WslCoreProtocol.cs:323-332 | fills the buffer with the next bytes however the stream cuts them into pieces, or fails at the end of the stream |
| Framing.ReadLengthPrefixed | desktop/CloudOS.WslCore/WslCoreProtocol.cs:311-321 | the frame, or the error, and what stays unread, independent of the pieces |
| Framing.WriteLengthPrefixed | desktop/CloudOS.WslCore/WslCoreProtocol.cs:302-309 | appends one frame, or, when the stream throws, the part of it that was sent by then |
| Framing.ReadFrameOfFrame | desktop/CloudOS.WslCore/WslCoreProtocol.cs:302-321 | a frame within the limit is read back as written and nothing behind it is touched |
| Framing.ReadFrameExactly | desktop/CloudOS.WslCore/WslCoreProtocol.cs:311-332 | what a read makes of any bytes: a header that announces nothing or more than the limit is refused and nothing behind it is consumed, a stream that ends early is an error, else the announced bytes are the frame |
| ByteOrder.BigEndianDigit | desktop/CloudOS.WslCore/WslCoreProtocol.cs:284-305 | numbers are written most significant byte first |
| SecureChannel.NonceInjective | desktop/CloudOS.WslCore/WslCoreProtocol.cs:284-291 | different sequence numbers give different nonces |
| SecureChannel.AadInjective | desktop/CloudOS.WslCore/WslCoreProtocol.cs:293-300 | the associated data determines direction and sequence number |
| SecureChannel.Layouts | desktop/CloudOS.WslCore/WslCoreProtocol.cs:284-300 | the bytes of nonce and associated data: the prefix, or the text that names protocol and direction and a NUL, then the eight digits of the number |
| SecureChannel.WhoWritesWhat | desktop/CloudOS.WslCore/WslCoreProtocol.cs:67-76 | the client writes as c2s and the server as s2c, each under the key and prefix of that way |
| SecureChannel.Channel.WriteAsync | desktop/CloudOS.WslCore/WslCoreProtocol.cs:85-115 | a write completes exactly when the channel is open, the sequence not exhausted, the body within its limits and the stream does not throw; it then takes the next sequence number and appends its frame; a refused write changes nothing, an interrupted one leaves a part of its frame and does not advance |
| SecureChannel.Channel.ReadAsync | desktop/CloudOS.WslCore/WslCoreProtocol.cs:117-146 | the envelope or error for the next frame; the sequence advances by one on success and is unchanged on every rejection; an accepted envelope has version 2 and a type that is not blank |
| SecureChannel.GenuineFrameOutcome | desktop/CloudOS.WslCore/WslCoreProtocol.cs:117-210 | the next frame that the peer has sealed is accepted if and only if it decodes to version 2 and a type that is not blank; otherwise the error says which is wrong |
| SecureChannel.RefusedExactly | desktop/CloudOS.WslCore/WslCoreProtocol.cs:120-142 | a frame is refused as too short below 24 bytes, as out of sequence unless it carries the next number, and as not intact if it does not open |
| SecureChannel.SealedOnceUnlessRetried | desktop/CloudOS.WslCore/WslCoreProtocol.cs:85-115 | no sequence number is used for two envelopes if and only if no write that gets to sealing follows an interrupted one |
| SecureChannel.SealsNumbered | desktop/CloudOS.WslCore/WslCoreProtocol.cs:85-115 | without such a retry the envelopes are sealed under 1, 2, ... in order, one for each completed write and one for an interrupted one |
| SecureChannel.RetryTakesSameNumber | desktop/CloudOS.WslCore/WslCoreProtocol.cs:108-109 | an interrupted write and the next one, sealed under the same number |
| SecureChannel.AcceptedWasSealed | desktop/CloudOS.WslCore/WslCoreProtocol.cs:117-146 | on any bytes a network may offer that hold no forgery, each accepted envelope was sealed by the peer under the number of its place, even if both directions shared one key |
| SecureChannel.AcceptedIsPrefix | desktop/CloudOS.WslCore/WslCoreProtocol.cs:85-146 | and unless the peer retried after an interruption, what is accepted is a prefix in order of what it wrote |
| SecureChannel.LawsAgree | desktop/CloudOS.WslCore/WslCoreProtocol.cs:98-102 | the laws assumed of AES-GCM can hold together, of bytes that carry a sealed frame |
| SecureChannel.RoundTrip | desktop/CloudOS.WslCore/WslCoreProtocol.cs:85-146 | every list of well-formed envelopes within the limits is received as written, whatever follows it |
| SecureChannel.SessionRoundTrip | desktop/CloudOS.WslCore/WslCoreProtocol.cs:67-83 | the two ends created from one key material agree on keys, prefixes and labels in both directions |
| SecureChannel.ReadMany | desktop/CloudOS.WslCore/WslCoreProtocol.cs:117-146 | any number of reads, going on after errors, over any pieces, returns what the specification of the stream says; the sequence counts the accepted envelopes, and each has version 2 and a type |
| SecureChannel.WriteAll | desktop/CloudOS.WslCore/WslCoreProtocol.cs:85-115 | any writes, going on after failures: which of them complete, the bytes they leave, that the sequence counts the completed ones, and that no nonce is used twice if and only if no write that gets to sealing follows an interrupted one |
| SecureChannel.WholeWritesArrive | desktop/CloudOS.WslCore/WslCoreProtocol.cs:85-146 | what uninterrupted writes leave on the stream is received as written |
| SecureChannel.Transfer | desktop/CloudOS.WslCore/WslCoreProtocol.cs:67-146 | writes of one end, any network, reads of the other end: each accepted envelope was sealed for its place, and without a retry they are a prefix of what was written |
| Hkdf.HkdfExpand | desktop/CloudOS.WslCore/WslCoreProtocol.cs:258-282 | for a length from 1 to 8160 the loop returns the first bytes of T(1), T(2), ... of section 2.3 of RFC 5869, with counters 1, 2, ... of at most 255; otherwise it is refused |
| Supervisor.RunSupervisorV11 | desktop/CloudOS.NativeRecovery/main.cpp:501-573 | ends at the first turn that is final or at which the failures since the last stable run reach the maximum, with the right kind of end and the right sleeps |
| Supervisor.CorrectEndUnique | desktop/CloudOS.NativeRecovery/main.cpp:510-572 | a run has only one correct end |
| Supervisor.EndIsExplained | desktop/CloudOS.NativeRecovery/main.cpp:510-572 | a run leaves with code 0 or 44 at the first turn at which the shell left in peace or answered the probe, and falls back at the first at which as many turns as the budget allows have failed with no run of 120,000 ms among them but the first |
| Supervisor.BackoffsBounded | desktop/CloudOS.NativeRecovery/main.cpp:466-470 | the sleeps of a row of failures never shrink, lie in 500 to 4000 ms, have this exact total, and total at most 27500 ms within the largest budget |
| Supervisor.PurgeOldFailures | desktop/CloudOS.NativeRecovery/main_v22.cpp:370-374 | removes the longest prefix of entries older than the window, with the wrapping subtraction of the source |
| Supervisor.PurgeIsFilter | desktop/CloudOS.NativeRecovery/main_v22.cpp:370-382 | with a clock that does not go back, purging from the front computes the filter of the whole failure history |
| Supervisor.RecordFailure | desktop/CloudOS.NativeRecovery/main_v22.cpp:376-382 | the deque is again the history filtered to the last 60 s, one longer at most, and the verdict compares its size with the maximum |
| Supervisor.WindowIsLastMinute | desktop/CloudOS.NativeRecovery/main_v22.cpp:370-382 | the crash window holds, in order, just the failures of the last 60,000 ms |
| SupervisorV22.RunSupervisorV22 | desktop/CloudOS.NativeRecovery/main_v22.cpp:407-610 | satisfies the specification of version 11 for every run and any clock; its trace, its sleeps, and that its deque is the crash window and never larger than the failure count |
| SupervisorV22.RunBoth | desktop/CloudOS.NativeRecovery/main_v22.cpp:407-610 | version 22 ends exactly as version 11 does after exactly the same sleeps, with a grammatical trace closed by what ended the run |
| SupervisorV22.ReturnsWithinBudget | desktop/CloudOS.NativeRecovery/main_v22.cpp:426-609 | if no shell lives 120,000 ms the supervisor returns within the maximum number of launches and 27.5 s of sleep |
| SupervisorV22.TraceGrammar | desktop/CloudOS.NativeRecovery/main_v22.cpp:384-609 | HEALTHY only directly after STARTING of the same process with a job, CRASH_LOOP always followed at once by SAFE_MODE, nothing after SAFE_MODE or STOPPING, RESTARTING below the maximum, SAFE_MODE exactly at it |
| SupervisorV22.TraceTells | desktop/CloudOS.NativeRecovery/main_v22.cpp:384-609 | the trace of any run has one STARTING for each launched shell and one before, HEALTHY for each that got ready with a job, STOPPING for each turn that leaves, RESTARTING or SAFE_MODE for each failure, DEGRADED for every trouble seen |
| SupervisorV22.TraceNamesProcesses | desktop/CloudOS.NativeRecovery/main_v22.cpp:416-609 | the STARTING entries name the launched processes in order |
| SupervisorV22.ClosingEntry | desktop/CloudOS.NativeRecovery/main_v22.cpp:384-609 | a failure is closed by RESTARTING or SAFE_MODE with the number of failures in a row and the exit code, 0xC0000409 for a shell that hung |
| Watchdog.MonitorShell | desktop/CloudOS.NativeRecovery/main.cpp:405-437 | ends at the first poll that shows an exit, a failed wait or a stale heartbeat, with the verdict that poll calls for; an exit is a failure if its code has the top bit set and is not that of Ctrl+C |
| Watchdog.FreshExactly | desktop/CloudOS.NativeRecovery/main.cpp:323-420 | a sample counts if and only if it shows this process, state 2, and a heartbeat from the timeout before the clock to 2000 ms after it, and the clock is not within 2000 ms of its wrap-around |
| Watchdog.MonitorBeatingShell | desktop/CloudOS.NativeRecovery/main.cpp:405-437 | a shell whose every sample shows it beating is left alone |
| Watchdog.MonitorAnyShell | desktop/CloudOS.NativeRecovery/main.cpp:405-437 | an alarm comes more than the timeout after the start and after every sample that showed the shell beating |
| Watchdog.MonitorSilentShell | desktop/CloudOS.NativeRecovery/main.cpp:405-437 | a shell that no sample shows beating - another process or state, a heartbeat too old or too far ahead - is reported at the first sample more than the timeout after the start |
| Watchdog.StaleOnlyAfterTimeout | desktop/CloudOS.NativeRecovery/main.cpp:405-437 | a stale verdict comes more than the timeout after the start and after every sample that showed a fresh heartbeat |
| Watchdog.StaleWithinBound | desktop/CloudOS.NativeRecovery/main.cpp:323-437 | a heartbeat that stopped at h is reported within twice the timeout and two polling gaps after h or the start |
| Watchdog.MonitorStoppedShell | desktop/CloudOS.NativeRecovery/main.cpp:405-437 | the loop itself meets both bounds on a shell whose heartbeat has stopped |
| HealthSnapshot.StepKeepsInv | desktop/CloudOS.NativeCommon/native_supervisor_protocol_v11.h:21-41 | what each step of the assumed writer keeps: the even sequence numbers number the completed updates |
| HealthSnapshot.AcceptedIsConsistent | desktop/CloudOS.NativeRecovery/main.cpp:291-318 | for every interleaving the fields of an accepted copy up to the sequence number are of one completed update, and each later field is of that update or a newer one |
| HealthSnapshot.ReadHealthSnapshot | desktop/CloudOS.NativeRecovery/main.cpp:291-320 | the loop returns the first settled attempt if it carries the right magic, schema and size, and what it returns is consistent; otherwise no such attempt exists |
| HealthSnapshot.AcceptsExactly | desktop/CloudOS.NativeRecovery/main.cpp:298-316 | which fields of the two copies are compared, and with which values |
| HealthSnapshot.AtomicIffUnchanged | desktop/CloudOS.NativeRecovery/main.cpp:302-316 | an accepted copy is one published update if and only if no field behind the sequence number changed between the moment that number was copied and its own |
| HealthSnapshot.AtomicIfQuiet | desktop/CloudOS.NativeRecovery/main.cpp:302-316 | so it is one if the writer is still quiet when the last field is copied |
| HealthSnapshot.AcceptedMayBeTorn | desktop/CloudOS.NativeRecovery/main.cpp:302-316 | a history in which a copy is accepted that no update ever published |
| Bootstrap.PruningIsInvisible | desktop/CloudOS.Bootstrap/CrashLoopPolicy.cs:64-74 | the pruned, saved history answers every later question as the full history would |
| Bootstrap.CheckIsExact | desktop/CloudOS.Bootstrap/CrashLoopPolicy.cs:17-18 | the check on the saved state is the check on everything that ever happened, and an attempt it lets pass is one the limit permits |
| Bootstrap.AskedExactly | desktop/CloudOS.Bootstrap/CrashLoopPolicy.cs:17-18 | the user is asked exactly if the threshold of failures since the last reset lies within the window |
| Bootstrap.RecentFailuresExact | desktop/CloudOS.Bootstrap/CrashLoopPolicy.cs:64-74 | on any clock, the recent failures are in order those from the window before now to 60,000 ms after now, each as often as saved |
| Bootstrap.FailureKeeps | desktop/CloudOS.Bootstrap/CrashLoopPolicy.cs:41-55 | recording a permitted failure keeps the saved state consistent with the log and the limit intact |
| Bootstrap.PermittedByRetry | desktop/CloudOS.Bootstrap/App.xaml.cs:147-153 | a Retry of the user pays for one failure in every interval that contains both |
| Bootstrap.Supervise | desktop/CloudOS.Bootstrap/App.xaml.cs:191-204 | readiness and stability notices keep the saved state consistent, and a stable run resets the log |
| Bootstrap.RunAttempt | desktop/CloudOS.Bootstrap/App.xaml.cs:144-188 | one turn asks the user exactly when the unpruned log demands it, logs what happened and ends the loop exactly when it should |
| Bootstrap.LogEntries | desktop/CloudOS.Bootstrap/App.xaml.cs:146-188 | which Retry, reset or failure one attempt leaves in the log |
| Bootstrap.GoesOnExactly | desktop/CloudOS.Bootstrap/App.xaml.cs:146-188 | the loop goes on after an attempt exactly if the user did not decline and the host crashed |
| Bootstrap.RunLoop | desktop/CloudOS.Bootstrap/App.xaml.cs:141-189 | the loop with the pruned state produces the log of the reference that never forgets, and every closed interval as long as the window holds at most the threshold of failures since the last reset plus the Retry choices in it |
| Bootstrap.FailuresAreCrashes | desktop/CloudOS.Bootstrap/App.xaml.cs:170-185 | over every run the failures in the log are, in order, the hosts that were never ready, left with another code than 0, or left too early without being allowed to |
| Bootstrap.NeverReadyFails | desktop/CloudOS.Bootstrap/App.xaml.cs:170-185 | attempts that are never ready leave one failure each |
| Bootstrap.RunSessions | desktop/CloudOS.Bootstrap/App.xaml.cs:141-189 | the same over any number of restarts of the bootstrapper through the saved state, each with options of its own |
| Distribution.NormalizeIsNormal | desktop/CloudOS.Bootstrap/DistributionChannelPolicy.cs:54-59 | normalizing a channel name twice is normalizing it once |
| Distribution.Store.AssertPackageChannel | desktop/CloudOS.Bootstrap/DistributionStateStore.cs:52-67 | the new state, or the refusal, for every stored state and package channel |
| Distribution.Store.RecordPrepared | desktop/CloudOS.Bootstrap/DistributionStateStore.cs:69-80 | the whole new state |
| Distribution.Store.MarkHealthy | desktop/CloudOS.Bootstrap/DistributionStateStore.cs:82-94 | the whole new state |
| Distribution.StepKeeps | desktop/CloudOS.Bootstrap/DistributionUpdateService.cs:35-87 | every step, an apply that throws included, keeps that pending and offered channels are reached from the confirmed one by an edge, by request if they differ |
| Distribution.CheckOffersExactly | desktop/CloudOS.Bootstrap/DistributionUpdateService.cs:35-51 | in every run a check makes an offer if and only if the channels exist, they are the same or the other one was asked for, and the matrix has the row from the confirmed one to it; and it offers just that channel |
| Distribution.WindowOpensExactly | desktop/CloudOS.Bootstrap/DistributionStateStore.cs:52-67 | in every run the update window opens if and only if the channel of the package exists and is the confirmed or the pending one, or none is confirmed yet |
| Distribution.RequestedChannelArrives | desktop/CloudOS.Bootstrap/DistributionUpdateService.cs:29-87 | in every run a channel that is asked for and that the matrix allows is the confirmed one once the update was applied and ran stably |
| Distribution.ChannelsChangeByRequest | desktop/CloudOS.Bootstrap/DistributionChannelPolicy.cs:61-76 | along every run, in which each step may find another policy, each change of a confirmed channel is a row, from it to the new one, of the matrix it was checked against and explicitly requested, if and only if no policy has a channel with an empty name |
| Distribution.RollbackOnlyWhilePending | desktop/CloudOS.Bootstrap/DistributionStateStore.cs:82-102 | in every run under any policies, a rollback is available only between an apply or rollback and the next healthy run |
| Distribution.SecondRollback | desktop/CloudOS.Bootstrap/App.xaml.cs:129-139 | in every run, after one rollback a second one can be taken if and only if the policy then in force has the channel; it installs the version that ran at the first one if and only if the manager reported that version then, or the first one installed it already; without a report it repeats the first |
| Distribution.RollbacksAlternate | desktop/CloudOS.Bootstrap/App.xaml.cs:129-139 | with versions reported and applied, any number of rollbacks without a healthy run goes back and forth between the same two versions |
| Distribution.RollbackReturnsOrRepeats | desktop/CloudOS.Bootstrap/App.xaml.cs:129-139 | two runs, one in which the second rollback installs the abandoned version and one in which it repeats the first |
| Distribution.HealthyIsWhatRan | desktop/CloudOS.Bootstrap/DistributionStateStore.cs:82-94 | in every run, a stable run marks the version that ran if and only if applying the newest recorded version did not throw, or that is the version that ran; otherwise it marks the one that never ran |
| Distribution.OtherVersionMarkedHealthy | desktop/CloudOS.Bootstrap/UpdateWindow.cs:88-101 | a run in which applying version 2 throws, version 1 runs on stably and version 2 is marked healthy |
| Installer.PreparedIsChecked | desktop/CloudOS.Installer/InstallerCapabilityService.cs:49-147 | a prepared capability has passed the whole chain of digest, size, kind and trust checks against its catalog record |
| Installer.ReadyExactly | desktop/CloudOS.Installer/InstallerCapabilityService.cs:49-147 | a capability can be issued if and only if every look shows the registered kind, size and digest, it can be launched, its publisher is trusted or the user allows it, and nothing fails on the way |
| Installer.BlockedExactly | desktop/CloudOS.Installer/InstallerCapabilityService.cs:50-116 | which reason is given when nothing is prepared |
| InstallerRuns.StepKeeps | desktop/CloudOS.Installer/InstallerCapabilityService.cs:184-282 | every step keeps fates, tables, provenance, plans and deletions consistent |
| InstallerRuns.OneShot | desktop/CloudOS.Installer/InstallerCapabilityService.cs:150-333 | in every interleaving each issued capability has one fate, at most one consume of it returns a plan and only before expiry, and for each one that left the table otherwise the deletion of its staging was attempted or is about to be; any other staging directory still there is one left behind |
| InstallerRuns.LeftBehind | desktop/CloudOS.Installer/InstallerCapabilityService.cs:108-126 | a staging directory is left behind, neither issued nor tried to be deleted, exactly if the checks on the source passed, it was made, and the directory for logs could not be |
| InstallerRuns.PlansAreJustified | desktop/CloudOS.Installer/InstallerCapabilityService.cs:49-215 | whatever happens to the files, a returned plan carries the registered digest, which is also the one seen at consumption, and without permission Trusted was seen at the source, in staging and at consumption |
| InstallerRuns.ConsumeReturnsPlan | desktop/CloudOS.Installer/InstallerCapabilityService.cs:42-221 | from every state of a run, an artifact that is registered, prepared as it should be and consumed gives exactly one plan with the registered digest if and only if its lifetime is not over, the look still shows digest and kind, its publisher is trusted if it was at the source, and the plan is valid |
| InstallerRuns.RegisteredIsSupported | desktop/CloudOS.Installer/InstallerCatalog.cs:33-61 | nothing but supported installers is ever registered |
| InstallerRuns.DisposedForGood | desktop/CloudOS.Installer/InstallerCapabilityService.cs:236-249 | after disposal no capability is issued or live any more |
| InstallerRuns.FinalFatesStay | desktop/CloudOS.Installer/InstallerCapabilityService.cs:184-282 | a consumed, rejected, expired, completed or disposed capability keeps its fate in every step |
| InstallerRuns.EndIsFinal | desktop/CloudOS.Installer/InstallerCapabilityService.cs:184-282 | in every continuation such a capability keeps its fate and no further plan is returned for it |
| InstallerRuns.GoneForGood | desktop/CloudOS.Installer/InstallerCapabilityService.cs:184-282 | a capability that left the table other than by a consume that succeeded or still runs never gives a plan, whatever the tasks still do |
| InstallerService.Catalog.Add | desktop/CloudOS.Installer/InstallerCatalog.cs:50-63 | the loop leaves the new record in place of every record of the same path and no other |
| InstallerService.CapabilityService.PurgeExpiredLocked | desktop/CloudOS.Installer/InstallerCapabilityService.cs:324-333 | the loop removes exactly the capabilities past their expiry and tries to delete the staging of each, as the runs have it |
| InstallerService.CapabilityService.StartPrepare | desktop/CloudOS.Installer/InstallerCapabilityService.cs:48-49 | reads the record of the artifact, as the runs have it, unless the service is disposed or there is none |
| InstallerService.CapabilityService.FinishPrepare | desktop/CloudOS.Installer/InstallerCapabilityService.cs:50-182 | a capability that is issued comes from a registered artifact, passed every check and is live; the new state, with the staging that was made, left behind or deleted, is that of the runs |
| InstallerService.CapabilityService.TakeForConsume | desktop/CloudOS.Installer/InstallerCapabilityService.cs:191-196 | takes a capability exactly if it is live and not past its expiry; the new state is that of the runs |
| InstallerService.CapabilityService.FinishConsume | desktop/CloudOS.Installer/InstallerCapabilityService.cs:198-221 | a plan that is returned is the first for its capability and justified by what was registered and by what was just seen; otherwise the staging is due for deletion; the new state is that of the runs |
| InstallerService.CapabilityService.Complete | desktop/CloudOS.Installer/InstallerCapabilityService.cs:223-234 | no continuation of any task gives a plan for a live capability that was completed, and its staging is due for deletion; the new state is that of the runs |
| InstallerService.CapabilityService.Expire | desktop/CloudOS.Installer/InstallerCapabilityService.cs:269-282 | removes a live capability exactly if it is due and the service not disposed; no continuation gives a plan for what it removes, whose staging is due for deletion; the new state is that of the runs |
| InstallerService.CapabilityService.Dispose | desktop/CloudOS.Installer/InstallerCapabilityService.cs:236-249 | no continuation gives a plan for any capability that was still live, and their staging is due for deletion; the new state is that of the runs |
| InstallerService.Perform | desktop/CloudOS.Installer/InstallerCapabilityService.cs:42-333 | every step of every task takes the objects to the state of the run |
| InstallerService.Execute | desktop/CloudOS.Installer/InstallerCapabilityService.cs:42-333 | after any interleaving the objects are in the state of the run, and the plans they returned are justified and for different capabilities |
| Json.ReadPrint | desktop/CloudOS.NativeCommon/native_window_registry_v23.h:51-115 | a JSON reader after RFC 8259, with the strings of its section 7, inverts the printer on every value |
| WindowRecord.EscapeJson | desktop/CloudOS.NativeCommon/native_window_registry_v23.h:87-115 | the loop computes the escaped form |
| WindowRecord.ToJson | desktop/CloudOS.NativeCommon/native_window_registry_v23.h:51-84 | prints the members in order, and a reader that looks fields up by name gets the record back |
| WindowRecord.RoundTrip | desktop/CloudOS.NativeCommon/native_window_registry_v23.h:51-115 | for every record the reader returns the same field values and capability list |
| WindowRecord.ToJsonInjective | desktop/CloudOS.NativeCommon/native_window_registry_v23.h:51-115 | different records never print alike |

## Left out

- Win32, process, pipe, registry, file and window calls appear only as outcomes of steps; dialogs, XAML and the Flutter method channel do not appear at all.
- AES-GCM, HMAC-SHA-256, SHA-256, Authenticode, Velopack and System.Text.Json appear only through the laws named above.
- Which of two envelopes sealed under one number is accepted when a write follows an interrupted one: either may be, and only that it was sealed under its number is shown.
- The rejection of a nonce prefix that is not 4 bytes long, and the disposal of the channel's keys.
- Delivery of every exit event: eviction may drop an older exit of another session; only the newest exit is shown to be queued.
- The program name at the front of a command line, which CommandLineToArgvW splits by rules of its own.
- The text of the persisted supervisor state, its file and its transition counter; an entry of the trace is a call of PersistSupervisorStateV22, whether or not the file could be written.
- The single-instance mutex of the supervisor and its exit codes 20, 42 and 43; WaitForReady and the ready probes are outcomes of a turn.
- The writer of the health block is not part of this model's sources; the order of its stores is an assumption, 64-bit wrap-around of its sequence is not modelled, and a field is copied in one piece.
- Restart delays of the bootstrapper, the text of its failure reasons, and a state file that cannot be read or written: a session finds the state that was saved last.
- A distribution state that cannot be read counts as empty in the source; the runs here always read what was saved last. Origins, signatures and assets of updates are left to the environment; one version has one text in the product metadata, the feed and the saved state.
- Distribution.NormalizeIsNormal: folds the case of ASCII letters only, as do all comparisons here that ignore case; channel names, digests and paths with other letters are compared as they are.
- Loading and saving the installer catalog; capability ids and artifact ids are random in the source and assumed not to repeat.
- JSON numbers with fractions or exponents and surrogate pairs are not read by the reader; monitor, event and snapshot records are not modelled, since the source prints their ids unescaped.
- The broker client, activation and notification clients, the recovery tool, prerequisite probes and argument parsers are not part of this model.
