# Control Manager: device update, pairing, recovery and IR usage

A Dafny model of the stateful parts of the Control Manager, with proofs of what they keep over every run.

- **Image download** (`CacheSpec`, `CacheProofs`, `CacheExposure`, `CacheRuns`, `CacheResume`, `CacheDownload`,
  `UnlockedWorker`, `DownloadProgress`, `ImageDownload`, `ImageSession`). A controller downloads an image in small
  packets. Two adjacent 2048-byte chunks of the image file are kept in memory; a worker thread refills the older one
  when the controller comes near the end of the newer one. Over every interleaving the cache is proved to serve the
  file except for packets that show bytes copied over them, by a resume in the last two chunks or by copying under
  way, and these are delimited exactly. What is counted and reported of a download is proved over the requests.
- **Download sessions** (`SessionSpec`, `SessionProofs`, `SessionSteps`, `SessionResults`, `SessionResume`,
  `DeviceUpdate`). At most two downloads are active. Sessions are counted in three counters and per image; the
  worker creates and removes temporary files according to counter snapshots carried in its message queue; a flag
  blocks voice during foreground downloads. The steps that keep these books right are characterised exactly.
- **Image selection** (`ImageSelection`). Which row of the image table a controller is offered.
- **Versions** (`VersionSpec`, `VersionProofs`, `VersionTokens`, `Version`). Reading, printing and comparing dotted
  versions.
- **Pairing window** (`PairingSpec`, `PairingProofs`, `PairingEffects`, `PairingWindow`). Three binding modes with timers
  and queued closes.
- **Crash recovery** (`CrashRecovery`). Escalation over failed boots.
- **IR usage** (`IrUsage`). The two-slot record of IR remotes seen today and yesterday.

Each class has the fields and methods of the code; a method's contract ties its new state to a function of the old
one, and the lemmas are about runs of those functions. `Words` holds the C integer widths,
`Options` the type of values that may be missing, `Packets` the packet lengths of a download, `Runs` the runs of a state
machine.

## Assumptions

- An extracted image file has the size its metadata gives, and `fopen` succeeds exactly when its archive is
  extracted. Archives of different images have different names.
- Images are at most `0xFFFF0000` bytes, so that no 32-bit sum of an offset, a packet and the chunks ahead wraps;
  packets are at most 2048 bytes (the code sends at most 88, its comments say 128).
- Downloads are not interactive (`download.interactive` is off), and a voice object exists.
- Steps under the engine's mutex are atomic. READ and RESET copy without it, and READ publishes without it:
  `UnlockedWorker` interleaves requests with every byte copied, with READ's new offset and with its new byte count.
- `Bad` replies and `Fault` outcomes stand for copies from or to memory outside the chunks, which C leaves undefined.
- `char` strings are sequences of characters; `unsigned long` is 32 or 64 bits (`Platform`).

## Where the code and its comments differ

- "The highest software version will always win" (`src/ctrlm_device_update.cpp:1232`): a forced upgrade behind an
  earlier upgrade is passed over. `ImageSelection.HighestWinsExactly` gives the exact condition.
- The prefetch threshold is explained by packets of at most 128 bytes (`src/ctrlm_device_update.cpp:40`): 129 would
  still be safe, 130 not (`CacheProofs.ThresholdExact`).
- A RESET within two chunks of the end of the file overwrites the chunks but not their offsets
  (`src/ctrlm_device_update.cpp:1555-1569`): the old offsets then answer with other bytes
  (`CacheResume.ShortResetMisplaces`). The packet asked for is missed again, unless READs queued ahead of the RESET
  moved the window over it; then it is served from the overwritten chunks (`CacheResume.RetryServedExactly`). A
  controller that reads in order but outruns the worker gets wrong bytes that way (`CacheResume.OutrunCorrupts`).
  `CacheRuns.RepliesExactly` says of every run whether that happens.
- The unlocked copying is harmless only for requests that keep off what is being copied
  (`UnlockedWorker.UnlockedRepliesExactly`). READs are not de-duplicated, so that asking twice for one packet is
  enough to have its own chunk copied over (`UnlockedWorker.SecondReadExposed`).
- Ending a session a second time before its UNSTAGE, for example by its timer, counts down again
  (`SessionSteps.KeptExactly`), to below zero (`SessionResults.TimerAfterEnd`). A timer callback that comes when the
  session has gone reads parameters that UNSTAGE has freed (`src/ctrlm_device_update.cpp:1637-1638`, `2079`), which C
  leaves undefined; if they still read as before, it makes a new, uncounted session
  (`SessionSteps.LateTimerMiscounts`).
- Setting the autobind configuration with a threshold out of range destroys the one-touch timer of a running
  pairing (`PairingProofs.OneTouchGuardedExactly`, `PairingProofs.OneTouchStranded`).
- Without HAL NVM the time of the database backup is compared with zero, so backups are never restored
  (`CrashRecovery.RestoredExactly`).
- `compare` of versions of different lengths is not symmetric (`VersionProofs.CompareFlips`), and beyond four
  revisions only the last four count (`VersionProofs.CompareIsLex`). Beyond 65535 its 16-bit index wraps, and printing
  does not end.

## Model

| member | source | states |
|---|---|---|
| `Version.VersionObject.LoadFromString` | src/ctrlm_controller.h:41-62 | the loop reads the dotted text as `Parse` does: base-0 numbers cut to 16 bits, at most four, none at all after one out of range |
| `Version.VersionObject.ToString` | src/ctrlm_controller.h:64-73 | the loop prints the revisions in decimal, with dots between them and none at the end |
| `Version.VersionObject.CompareTo` | src/ctrlm_controller.h:75-93 | the shift loop gives the comparison of the two 64-bit words |
| `VersionProofs.RoundTrip` | src/ctrlm_controller.h:41-73 | reading a printed version gives the version back, cut to four revisions, for lists of every length |
| `VersionProofs.PrintIsCanonical` | src/ctrlm_controller.h:41-73 | any text reads like the printed form of what it was read as |
| `VersionProofs.PackIsBig` | src/ctrlm_controller.h:76-86 | the shifted 64-bit word is the number spelled by the last four revisions |
| `VersionProofs.CompareIsLex` | src/ctrlm_controller.h:75-93 | the packed comparison is lexicographic on the last four revisions, the argument being cut or zero-padded to this length, up to 65536 revisions; beyond that the wrapped index reads it again |
| `VersionProofs.AlignedExactly` | src/ctrlm_controller.h:79-84 | what each revision is compared with: the argument's in the same place, zero where it has none, the place counted in 16 bits |
| `VersionProofs.CompareMeans` | src/ctrlm_controller.h:87-92 | 1 if this version is higher at the first difference among the last four places, -1 if it is lower there, 0 if there is none |
| `VersionTokens.TokensOfJoin` | src/ctrlm_controller.h:45-46 | a text is cut at its dots, empty parts included, but for an empty one at the end |
| `VersionTokens.ParseExactly` | src/ctrlm_controller.h:41-61 | the first four tokens give the revisions, each the lower 16 bits, unless one of them is out of range, which leaves none |
| `VersionTokens.BasesRead` | src/ctrlm_controller.h:53 | hexadecimal behind 0x or 0X, octal behind a zero, else decimal, up to the first other character; out of range from the platform's modulus on |
| `VersionTokens.SignsRead` | src/ctrlm_controller.h:53 | white space and a plus sign are skipped, a minus sign negates in the platform's width |
| `VersionTokens.NoDigitsRead` | src/ctrlm_controller.h:53 | a token without digits is zero |
| `VersionTokens.PrintExactly` | src/ctrlm_controller.h:64-73 | decimal numerals with no leading zeros, joined by dots |
| `VersionProofs.CompareFlips` | src/ctrlm_controller.h:75-93 | swapping the operands flips the sign exactly if the common part differs or the longer one ends in zeros |
| `VersionProofs.CompareOrders` | src/ctrlm_controller.h:75-93 | for one length of at most four revisions the comparison is a total order |
| `ImageSelection.PackedIsComponentwise` | src/ctrlm_device_update.cpp:1264-1295 | the 32-bit version predicates are the component-wise order of versions |
| `ImageSelection.IsImageAvailable` | src/ctrlm_device_update.cpp:1184-1234 | the loop over the table returns the row that the selection rule names |
| `ImageSelection.SelectionExact` | src/ctrlm_device_update.cpp:1184-1234 | the whole rule: the earliest of the highest among the first upgrade and the unforced ones; with no upgrade the last forced row; otherwise nothing |
| `ImageSelection.FitsExactly` | src/ctrlm_device_update.cpp:1189-1192 | which rows are considered: own image type, controller type and type-Z flag, default theme or none, same maker, no newer model or revision asked for, bootloader not below the minimum |
| `ImageSelection.OfferFits` | src/ctrlm_device_update.cpp:1184-1234 | whatever is offered fits the controller, is of a higher version or another one by force, and has the version told |
| `ImageSelection.OfferedExactly` | src/ctrlm_device_update.cpp:1184-1234 | something is offered exactly if some row fits and is of a higher version, or another one by force |
| `ImageSelection.UpgradeBeatsDowngrade` | src/ctrlm_device_update.cpp:1198-1213 | while an upgrade exists one is found and no forced downgrade chosen |
| `ImageSelection.UnforcedMaximum` | src/ctrlm_device_update.cpp:1214-1230 | with nothing forced the earliest of the highest upgrades is found |
| `ImageSelection.HighestWinsExactly` | src/ctrlm_device_update.cpp:1198-1232 | the highest version wins exactly if every forced upgrade behind another upgrade is matched by an unforced or first one |
| `ImageSelection.HighestDoesNotAlwaysWin` | src/ctrlm_device_update.cpp:1232 | a plain 2.0.0.0 ahead of a forced 3.0.0.0 is chosen |
| `ImageSession.DownloadSession.Stage` | src/ctrlm_device_update.cpp:1504-1533 | STAGE opens the file anew and keeps a new buffer with the first two chunks, or none if the file is shorter |
| `ImageSession.DownloadSession.ReadNextChunk` | src/ctrlm_device_update.cpp:1571-1602 | READ replaces the older chunk and then publishes its offset, in 32-bit arithmetic |
| `ImageSession.DownloadSession.Reset` | src/ctrlm_device_update.cpp:1543-1569 | RESET refills both chunks from the aligned offset; a short read changes the bytes only |
| `ImageSession.DownloadSession.CopyPacket` | src/ctrlm_device_update.cpp:1704-1727 | the four branches copy the packet out of the chunks, report a miss, or leave the buffer |
| `ImageSession.DownloadSession.ReadImageData` | src/ctrlm_device_update.cpp:1667-1767 | a request's reply within the size of the image it names, the message it queues, the resume flag and the progress, in every branch |
| `ImageSession.DownloadSession.CountBytes` | src/ctrlm_device_update.cpp:1746-1762 | bytes sent, the status event due, and the completion of the download |
| `CacheProofs.StageKeeps` | src/ctrlm_device_update.cpp:1518-1532 | STAGE establishes the window, exactly for files of two chunks or more |
| `CacheProofs.StageExactly` | src/ctrlm_device_update.cpp:1518-1532 | STAGE over any cache: the first two chunks and their offsets, or, of a shorter file, only the file position |
| `CacheProofs.ReadKeeps` | src/ctrlm_device_update.cpp:1571-1602 | every READ keeps the window: aligned adjacent offsets, chunks equal to the file, file position and byte count at the end of the newer chunk, redundant READs at the end included |
| `CacheProofs.ShortRead` | src/ctrlm_device_update.cpp:1571-1602 | a READ that gets less than it asks for, of whatever file: the bytes are over the older chunk, the offsets and the count as before |
| `CacheProofs.ResetKeeps` | src/ctrlm_device_update.cpp:1543-1569 | RESET moves the window to the aligned offset when two whole chunks follow |
| `CacheProofs.ResetExactly` | src/ctrlm_device_update.cpp:1543-1569 | RESET field by field: offsets, counts and bytes from the start of the offset's chunk when two chunks follow; else the bytes copied and the old offsets, count and flag |
| `CacheProofs.FindExact` | src/ctrlm_device_update.cpp:1684-1738 | for every packet inside the file: the file's bytes if the window holds it, a bad copy if it starts below the window and reaches into it, a miss otherwise |
| `CacheResume.RetryServedExactly` | src/ctrlm_device_update.cpp:1543-1569 | a request asked again after the READs that were queued and its RESET: served right if two whole chunks follow its aligned offset; if not, served from the overwritten chunks when the window the READs moved on to holds it, with the file's bytes exactly if it is not exposed, and else missed, with no further RESET, or bad at the lower edge |
| `CacheRuns.NoneQueuedUnlessPending` | src/ctrlm_device_update.cpp:1730-1735 | in every run a request that may ask for a RESET finds no other RESET in the queue |
| `CacheResume.MissAsks` | src/ctrlm_device_update.cpp:1728-1738 | a missed request, with none pending, queues a RESET behind what is queued |
| `CacheResume.OutrunCorrupts` | src/ctrlm_device_update.cpp:1728-1744 | in every image of 4176 to 6143 bytes an in-order controller that asks for 4088 before the READ asked for at 4000 is done is served the byte at 2048 in place of the one at 4096 |
| `CacheResume.ShortResetMisplaces` | src/ctrlm_device_update.cpp:1555-1558 | after a short RESET the even chunk's offsets answer with the end of the file |
| `CacheResume.TailResumeCorrupts` | src/ctrlm_device_update.cpp:1555-1558 | a 5000-byte image resumed at 4500 serves a wrong first byte |
| `CacheRuns.RepliesExactly` | src/ctrlm_device_update.cpp:1473-1605 | over every interleaving of STAGE, READ, RESET and requests, resumes anywhere: all replies are the file's bytes, or none, or the bad copy across the low edge, and the worker never writes outside the buffer, exactly if no request is for a packet that shows bytes spilt by a RESET that came up short |
| `CacheRuns.SpiltRead` | src/ctrlm_device_update.cpp:1571-1602 | after a short RESET a READ copies nothing: it changes nothing or, at the very end of the file, moves the window by an empty chunk |
| `CacheRuns.CacheRefinesFile` | src/ctrlm_device_update.cpp:1473-1605 | so in every run with no resume in the last two chunks all replies are faithful |
| `CacheDownload.InOrderDownload` | src/ctrlm_device_update.cpp:1705-1744 | an in-order controller with packets of 1 to 1920 bytes that waits for each READ receives the image, never a miss, exactly if the image fills two chunks |
| `CacheDownload.InOrderWithoutWaiting` | src/ctrlm_device_update.cpp:1705-1744 | one that does not wait receives the file's bytes up to any point exactly if it keeps pace, counted in offsets and queued READs alone; otherwise some packet is not served |
| `CacheDownload.LeftBehind` | src/ctrlm_device_update.cpp:1741-1744 | two READs queued in one window leave the next packet behind it |
| `CacheProofs.FillUnseen` | src/ctrlm_device_update.cpp:1576-1602 | while READ fills the older chunk without the lock, later packets are the file's bytes or nothing |
| `CacheProofs.ThresholdExact` | src/ctrlm_device_update.cpp:39-40 | that holds for a packet length exactly if it is at most 129 |
| `CacheExposure.FindHalfWay` | src/ctrlm_device_update.cpp:1555-1602 | every request inside the file at every moment of a READ or RESET: which bytes it is shown, a bad copy, or a miss |
| `CacheExposure.ReadExposes` | src/ctrlm_device_update.cpp:1576-1602 | a READ exposes exactly the packets that reach below what it has copied where the file differs from itself two chunks on |
| `CacheExposure.ResetExposes` | src/ctrlm_device_update.cpp:1543-1569 | a RESET exposes exactly the packets whose place in the buffer it has reached where the file differs from itself at that place counted from the aligned offset |
| `CacheExposure.CopiesOneByte` | src/ctrlm_device_update.cpp:1555-1591 | copying starts from the old buffer and each step stores the file's next byte and no other |
| `CacheExposure.AllCopied` | src/ctrlm_device_update.cpp:1555-1602 | copying stays inside the buffer, and after the last byte it is as the atomic READ or RESET leaves it |
| `UnlockedWorker.UnlockedRepliesExactly` | src/ctrlm_device_update.cpp:1543-1602 | the same with READ and RESET copying byte by byte without the lock: over every interleaving, with resumes anywhere and any number of READs queued, all replies are faithful exactly if no request is for a packet that is exposed at that moment, by copying under way or by a short RESET |
| `UnlockedWorker.UnlockedCopyUnseen` | src/ctrlm_device_update.cpp:1576-1602 | so it is for every controller that, while a READ copies, asks for nothing below the newer chunk, while a RESET copies, for nothing the old window holds, and does not resume in the last two chunks |
| `UnlockedWorker.PrefetchKeepsOff` | src/ctrlm_device_update.cpp:39-40 | requests no lower than one of at most 129 bytes that asks for a READ in the present window keep off what that READ copies over |
| `UnlockedWorker.SecondReadExposed` | src/ctrlm_device_update.cpp:1741-1744 | in every image over 6144 bytes, two requests for one packet queue two READs, and one byte into the second the packet shows the byte from 6144 in place of the one at 2048 |
| `DownloadProgress.StatusEvents` | src/ctrlm_device_update.cpp:1746-1762 | an in-order download reports percentages that never fall, 100 once and last, at most 100/increment + 2 of them, the next one due fits its byte, and only the last packet completes it |
| `DownloadProgress.EventsExact` | src/ctrlm_device_update.cpp:1746-1754 | the events of an in-order download are exactly those due: a percentage once it is as many increments as there were events, and 100 at the end |
| `ImageDownload.DownloadReported` | src/ctrlm_device_update.cpp:1667-1767 | over the requests themselves, for every in-order download that keeps pace: the bytes counted are the bytes served, the events are those due, complete exactly with the last byte, and then well reported |
| `ImageDownload.WaitingKeepsPace` | src/ctrlm_device_update.cpp:1741-1744 | a controller with packets of up to 1920 bytes that lets the worker work after each keeps pace |
| `ImageDownload.MissCounts` | src/ctrlm_device_update.cpp:1728-1738 | a first miss sets the count to the offset asked for; a miss with a RESET pending, and requests that get nothing, leave it |
| `DeviceUpdate.Engine.BeginDownload` | src/ctrlm_device_update.cpp:1804-1931 | begin, in every branch but the interactive one: counters, session, STAGE message, timer, foreground flag and voice |
| `DeviceUpdate.Engine.CompleteDownload` | src/ctrlm_device_update.cpp:1970-1995 | the end of a download clears its flags, and voice unless another foreground download runs |
| `DeviceUpdate.Engine.AnyForeground` | src/ctrlm_device_update.cpp:1980-1985 | the loop finds a foreground download exactly if there is one |
| `DeviceUpdate.Engine.NoteDownloaded` | src/ctrlm_device_update.cpp:1756-1762 | completion frees the session's place among the active ones, once |
| `DeviceUpdate.Engine.LoadImageInfo` | src/ctrlm_device_update.cpp:2006-2017 | a load request ends the download of its session |
| `DeviceUpdate.Engine.EndSession` | src/ctrlm_device_update.cpp:1933-1968 | end lowers the counters and queues UNSTAGE with their new values |
| `DeviceUpdate.Engine.SessionTimedOut` | src/ctrlm_device_update.cpp:2070-2090 | the timer ends the session it was started for; one that has gone comes back blank |
| `DeviceUpdate.Engine.ProcessMessage` | src/ctrlm_device_update.cpp:1473-1657 | STAGE and UNSTAGE: session, directories and archive as the message's snapshot says |
| `DeviceUpdate.Engine.ResumeCheck` | src/ctrlm_device_update.cpp:2462-2493 | the loop with erase leaves what the resume pass leaves, and ends |
| `SessionSteps.KeptExactly` | src/ctrlm_device_update.cpp:1791-1968 | a step keeps all books right exactly if it is allowed: same-image begins, reads and one end before UNSTAGE, an end for the session's image |
| `SessionSteps.SecondEndMiscounts` | src/ctrlm_device_update.cpp:1962-1966 | ending a session a second time leaves the session counter wrong |
| `SessionSteps.LateTimerMiscounts` | src/ctrlm_device_update.cpp:2079-2083 | a timer that fires when its session has gone leaves a session nobody counted |
| `SessionResults.TimerAfterEnd` | src/ctrlm_device_update.cpp:1962-1966 | begin, end and the timer before UNSTAGE: the counters stand at their highest value, below zero |
| `SessionSteps.StageFiles` | src/ctrlm_device_update.cpp:1480-1512 | STAGE finds its session, and the directories and archive it needs exist when it opens the image |
| `SessionSteps.UnstageFiles` | src/ctrlm_device_update.cpp:1606-1656 | UNSTAGE removes archive and directories exactly when nobody uses them |
| `SessionResults.SessionsConserved` | src/ctrlm_device_update.cpp:1823-1826 | in every reached state the counters are the sessions less the queued UNSTAGEs, each reader count the sessions of its image not ended, the active count those still downloading, at most two |
| `SessionResults.VoiceBlockedExactly` | src/ctrlm_device_update.cpp:1917-1928 | voice is blocked exactly while a foreground download runs |
| `SessionResults.NoUnderflow` | src/ctrlm_device_update.cpp:1955-1964 | ending a live session finds every counter it lowers above zero |
| `SessionResults.BeginGrants` | src/ctrlm_device_update.cpp:1816-1928 | a new session is granted exactly if fewer than two downloads are active, in the foreground exactly for manual polls or by preference |
| `SessionResults.BeginAgain` | src/ctrlm_device_update.cpp:1808-1826 | a controller with a session: granted with no change on its own image; on another one staged but not counted |
| `SessionResults.LoadEndsDownload` | src/ctrlm_device_update.cpp:2006-2015 | a load request ends the download of its session, gives it back the preferred setting, and leaves voice blocked exactly if another session downloads in the foreground |
| `SessionResults.EndCountsOut` | src/ctrlm_device_update.cpp:1933-1968 | an end does the same, lowers every counter by one (the active count unless the download was complete), and queues UNSTAGE with the new counts |
| `SessionResults.TimerEnds` | src/ctrlm_device_update.cpp:2086-2087 | the timer of a live session does what an end does, and is gone |
| `SessionResults.LastReadFrees` | src/ctrlm_device_update.cpp:1756-1762 | the last bytes free the session's place among the active ones, once |
| `SessionResults.SmallSteps` | src/ctrlm_device_update.cpp:1741-1744 | a data request that asks for a READ queues it for its session and image |
| `SessionResults.WorkExactly` | src/ctrlm_device_update.cpp:1473-1657 | STAGE and UNSTAGE in any state: directories, archives and the session, by the snapshot of the message |
| `SessionResults.SnapshotsRefineCounters` | src/ctrlm_device_update.cpp:1486-1497 | after any part of the queue was processed the files on disk are as the last message's snapshot says |
| `SessionResults.EveryStageOpens` | src/ctrlm_device_update.cpp:1480-1512 | every queued STAGE will find its session and its image file |
| `SessionResults.CaughtUp` | src/ctrlm_device_update.cpp:1606-1656 | with the queue worked off, archives and directories exist exactly for the counters above zero |
| `SessionResume.ResumePass` | src/ctrlm_device_update.cpp:2462-2493 | for every list: it keeps, in order, exactly the entries with no image or no session; every session stays, on its image; no more than two downloads are active, and an entry with an image waits only if two are |
| `SessionResume.ResumedSession` | src/ctrlm_device_update.cpp:2475-2484 | a controller without a session gets one exactly if an image is selected, forced or not, and fewer than two downloads are active: on that image, downloading, in the background unless polled manually or not preferred, no timer |
| `SessionResume.ResumeKeepsExactly` | src/ctrlm_device_update.cpp:2462-2493 | the books are kept exactly if no controller that has or gets a session is on the list for another image |
| `PairingWindow.Manager.StartPairingMode` | src/ctrlm_main.cpp:5287-5359 | turns unknown networks away; stops the modes that are on, opens the window, starts the mode asked for; the result says whether there is such a mode and, for one-touch, a network to take it |
| `PairingWindow.Manager.EndPairingMode` | src/ctrlm_main.cpp:5361-5368 | turns unknown networks away; closes the window with reason END |
| `PairingWindow.Manager.ClosePairingWindow` | src/ctrlm_main.cpp:5417-5496 | closes the window and the three modes, recording failures |
| `PairingWindow.Manager.StopMode` | src/ctrlm_main.cpp:2560-2581 | the STOP messages: an active mode goes off with its timer |
| `PairingWindow.Manager.SetBindStatus` | src/ctrlm_main.cpp:5498-5527 | a HAL failure does not replace an ASB failure |
| `PairingWindow.Manager.SetButtonProperty` | src/ctrlm_main.cpp:3441-3472 | the button property: new timer, screen binding off but not its timer |
| `PairingWindow.Manager.SetScreenProperty` | src/ctrlm_main.cpp:3473-3496 | the screen property, likewise |
| `PairingWindow.Manager.SetAutobindConfig` | src/ctrlm_main.cpp:3869-3907 | the one-touch timer is destroyed before the thresholds are checked; the result says whether they were in range and some network took them |
| `PairingWindow.Manager.TimeoutFired` | src/ctrlm_main.cpp:4531-4592 | a timer queues a CLOSE and clears its tag |
| `PairingWindow.Manager.ProcessMessage` | src/ctrlm_main.cpp:2560-2593 | the main thread's turn for the pairing messages |
| `PairingProofs.CloseEndsAll` | src/ctrlm_main.cpp:5417-5496 | every processed CLOSE leaves the three modes off and the window inactive |
| `PairingProofs.NextKeeps` | src/ctrlm_main.cpp:5287-5359 | every event keeps button and screen apart and each active one guarded by a timer or a queued CLOSE |
| `PairingProofs.ModesGuarded` | src/ctrlm_main.cpp:3441-3496 | the same for every reachable state, with the live timer named by the mode's tag |
| `PairingProofs.ActiveModeEnds` | src/ctrlm_main.cpp:4531-4571 | from every reachable state, the active mode's timer and the queue alone switch everything off |
| `PairingProofs.OneTouchGuardedExactly` | src/ctrlm_main.cpp:3876-3884 | one-touch binding stays guarded across an event exactly unless that is an out-of-range configuration that takes its timer with no CLOSE queued |
| `PairingProofs.OneTouchStranded` | src/ctrlm_main.cpp:3876-3884 | a one-touch pairing and then thresholds of zero: the mode is on with no timer and an empty queue |
| `PairingProofs.OneTouchGuardedThroughout` | src/ctrlm_main.cpp:3876-3884 | over every run, one-touch binding is guarded in every state exactly if no event strands it |
| `PairingProofs.OneTouchEnds` | src/ctrlm_main.cpp:4573-4592 | then its timer and the queue alone switch everything off |
| `PairingProofs.CloseRecords` | src/ctrlm_main.cpp:5417-5495 | for every reason, window open or not: one failure for each mode that was on, with the status then reached as its error, none after a success; autobinding is back on after END and timeout |
| `PairingEffects.InitiallyOff` | src/ctrlm_main.cpp:528-541 | before the first request everything is off, no timer runs and nothing is counted |
| `PairingEffects.StartedMode` | src/ctrlm_main.cpp:5298-5359 | mode 0 is button, 1 screen, 2 one-touch binding: that one is on with a timer of its own and no other, the window active, autobinding off, the status set back, the stopped modes' timers gone |
| `PairingEffects.ButtonSet` | src/ctrlm_main.cpp:3441-3472 | the button property: 0 off with its timer, 1 on with a new one and screen binding off but not its timer |
| `PairingEffects.ScreenSet` | src/ctrlm_main.cpp:3473-3496 | the screen property, likewise |
| `PairingEffects.AutobindSet` | src/ctrlm_main.cpp:3876-3907 | thresholds from 1 to 7: screen binding off and a new one-touch timer; otherwise only the old timer gone |
| `PairingEffects.TimerFired` | src/ctrlm_main.cpp:4531-4592 | a timer that fires is gone, queues a CLOSE and clears its own mode's tag |
| `PairingEffects.StopProcessed` | src/ctrlm_main.cpp:2560-2581 | a STOP ends the one mode it is for, with its timer |
| `PairingEffects.StatusProcessed` | src/ctrlm_main.cpp:5498-5527 | a status is taken over, but for a HAL failure after an ASB failure |
| `PairingEffects.CloseProcessed` | src/ctrlm_main.cpp:5361-5368 | a CLOSE closes and records for its own reason, the end of pairing mode for END; the timers of the modes that were on are gone |
| `CrashRecovery.RecoveryManager.CrashRecoveryCheck` | src/ctrlm_main.cpp:5590-5693 | the check's branches: count, restore, jump to the limit, delete, report the loop |
| `CrashRecovery.RecoveryManager.BootSucceeded` | src/ctrlm_main.cpp:759-764 | a successful boot clears what is shared |
| `CrashRecovery.CountBounded` | src/ctrlm_main.cpp:5615-5691 | over all boot sequences the count never passes twice the threshold |
| `CrashRecovery.RestoresBounded` | src/ctrlm_main.cpp:5639-5685 | between successes and deletions the backups are restored at most threshold times |
| `CrashRecovery.LimitReached` | src/ctrlm_main.cpp:5636-5691 | within as many failed boots as it is short of it the count is exactly twice the threshold |
| `CrashRecovery.AtTheLimit` | src/ctrlm_main.cpp:5618-5638 | at the limit invalid data means deletion and zero, valid data no change |
| `CrashRecovery.CheckExactly` | src/ctrlm_main.cpp:5590-5691 | by count, flags and backups: which action is taken, whether HAL NVM goes too, the count it leaves and the flags it clears; a success clears all |
| `CrashRecovery.ValidDataLoops` | src/ctrlm_main.cpp:5636-5638 | with valid data failing boots never leave the limit |
| `CrashRecovery.RestoredExactly` | src/ctrlm_main.cpp:5639-5685 | when the backups are restored; never without HAL NVM unless the backup is dated zero |
| `IrUsage.UsageTracker.HandleDayChange` | src/ctrlm_main.cpp:4752-4791 | the slots roll by the 32-bit difference of days, not before the shutdown time |
| `IrUsage.UsageTracker.WriteRecord` | src/ctrlm_main.cpp:4793-4817 | the 14-byte record |
| `IrUsage.UsageTracker.HandleControlEvent` | src/ctrlm_main.cpp:4218-4302 | a key rolls the slots, marks its remote, and writes the record when something changed |
| `IrUsage.UsageTracker.HandleQuery` | src/ctrlm_main.cpp:2723-2731 | a query rolls the slots and returns them |
| `IrUsage.UsageTracker.ReadRecord` | src/ctrlm_main.cpp:4819-4888 | start-up reads the record back and rolls it |
| `IrUsage.RecordRoundTrip` | src/ctrlm_main.cpp:4793-4864 | the record decodes to the memory it was written from |
| `IrUsage.RecordLayout` | src/ctrlm_main.cpp:4793-4808 | the flags of today, those of yesterday, and the day, lowest byte first |
| `IrUsage.RollExactly` | src/ctrlm_main.cpp:4752-4791 | days of 86400 seconds: nothing before the shutdown time or on the same day; today becomes yesterday on the next day; both are cleared otherwise |
| `IrUsage.BeforeShutdownTime` | src/ctrlm_main.cpp:4754-4757 | before the shutdown time queries and restarts roll nothing, and keys are noted on the day the slots are on |
| `IrUsage.TwoSlotsRefineHistory` | src/ctrlm_main.cpp:4752-4875 | over every run of keys, queries, shutdowns and restarts with a clock that does not go back, the slots tell exactly the remotes seen on their days, and the record reads back as the memory |
| `IrUsage.LatestShutdown` | src/ctrlm_main.cpp:796-803 | the shutdown time is that of the latest shutdown of the run |
| `IrUsage.QueryTells` | src/ctrlm_main.cpp:4752-4791 | with a clock that does not go back a query shows for today the remotes with a key on its day, and for yesterday those with one on the day before |
| `IrUsage.RestartLosesNothing` | src/ctrlm_main.cpp:4819-4888 | a restart leaves what a day change alone would have left |
| `IrUsage.ClockSetBack` | src/ctrlm_main.cpp:4752-4787 | after the clock went back the slots are right exactly if nothing was seen on that day or the one before |
| `IrUsage.MalformedEventStale` | src/ctrlm_main.cpp:4218-4226 | an event of the wrong length leaves the record stale exactly if the day had changed |

## Left out

- CacheRuns.RepliesExactly: images within 64 KiB of 4 GiB, where 32-bit offsets wrap, and packets longer than a chunk.
- CacheRuns.CacheRefinesFile: requests that name another image than their session's, which are bounded by that image's
  size.
- CacheProofs.ThresholdExact: one READ asked for in the present window; `UnlockedWorker` has any number of them.
- DeviceUpdate.Engine.SessionTimedOut: reading the freed parameters of a session that has gone, which C leaves undefined.
- DownloadProgress.StatusEvents: images of 42 MB and more, where the percentage wraps in 32 bits, and packets read twice, which are counted twice.
- DeviceUpdate.Engine.BeginDownload: the interactive branch, which un-counts a session it leaves in the map.
- CrashRecovery.CountBounded: thresholds that change between boots or that two of exceed 32 bits.
- IrUsage.UsageTracker.HandleControlEvent: the last-key record, key tags and the events sent on; which key codes identify a remote is the event's argument.
- PairingWindow.Manager.SetAutobindConfig: the binding configuration itself, which is passed on to the networks.
- Version.VersionObject.ToString: lists of more than 65535 revisions, on which the loop does not end.
- ImageSession.DownloadSession.ReadImageData: what follows a copy from outside the chunks, which C leaves undefined.
- The audio-theme pass before the selection loop, and images inserted at a given id, which only adds rows.
- Session times, load times, session ids and the events broadcast other than the download percentages.
- Processing a new archive while sessions run, which touches the same temporary directories.
- Failures of `mkdir`, `tar`, `fseek` and memory allocation.
- The shutdown time's own four-byte record.
- IARM calls, configuration files, the database, key tags, OTA failure counters, polling and logging.
