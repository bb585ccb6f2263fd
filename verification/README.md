# Verification of the algorithms and protocols of mira-daemon

The daemon watches and controls the user's other Spotify devices from a small standalone display.
Most of it is I/O; this project models the parts that are not, one Dafny module per component, and
proves what they promise. Code that changes state step by step is modelled by classes, arrays and loops whose
methods are proved against functions on values; the promises are theorems about those functions,
over every input, every history or every interleaving.

| module | what it models |
|---|---|
| Recovery, RecoveryHistories | the manager that reboots a Pi without internet at most once, its flag file, and whole histories of starts, ticks, crashes at any point, deletions and failing writes |
| CatalogFetch, CatalogSync, CatalogRefresh, ListRefresh | a catalog fetch with retries, the checkpointed sync that resumes after restarts, the incremental refresh of the liked tracks, and the refresh of the other lists and the playlist tracks |
| Levenshtein | the phonetic edit distance of the voice resolver |
| ClockOffset | the clock-offset estimator and the projection of the remote playback position |
| Mercury | the sequence-numbered request multiplexer and its frames |
| ShannonStream | the framed, encrypted stream with push-back |
| ReadyCallbacks | the hand-off of callbacks to a player that becomes ready |
| Hashcash, SpotifyIds, Positional | the login challenge, base-62 ids, and the positional numerals under both |
| QueueExpansion | expanding the queue preview from its context |
| PlaylistTokens | scanning a payload for playlist URIs |
| Options | the optional value |

Parameters stand for what lies outside: clocks, probes, ssh results, whether a write or removal of
a file succeeds, which fetches fail, the hash function, the stream cipher (any bytewise cipher for
which opening undoes sealing) and header marshalling.

## Where the code keeps less than its comments say

- `daemon/recovery.go:366-368` says that file operations of a profile deletion do not interleave
  with a tick. Nothing enforces that. With deletions at any moment there is still at most one
  reboot per lifetime, and between two reboots the first one's flag was removed and a start found
  none; but the removal may come before the first command, and then another reboot can follow
  without a removal in between (`RecoveryHistories.MidRebootDeletion`);
  `RecoveryHistories.RemovedBetweenExactly` says exactly when there is one.
- A flag that cannot be read at a start is taken for a corrupt one, which does not use up the
  lifetime's reboot (`RecoveryHistories.UnreadFlag`).
- The flag is removed on a best-effort basis. After a failed removal a flag can be on disk while
  the manager is idle (`RecoveryHistories.FailedRemovalLingers`); a next start that can read it
  does not reboot. `RecoveryHistories.WaitsForFlag` has the exact condition.
- The refresh of the liked tracks trusts a length check. It is right when tracks are only added
  at the head and removed, and wrong when a known track is moved to the head while others are
  removed (`CatalogRefresh.MovedToHead`); `CatalogRefresh.RefreshExact` says exactly when.
- The sync is meant to resume where it stopped, but a failed stage is passed over and the
  playlist-tracks stage then calls itself done with the playlists it has
  (`CatalogSync.MissedBySync`). The next start makes up for that if the liked tracks are complete,
  because it is a refresh then, and otherwise the one after it (`ListRefresh.MissedUntilRefresh`).
  A refresh does not complete a playlist or a list of playlists that was read half: their counts
  are stored with the first page, and the refresh only compares counts
  (`ListRefresh.HalfReadStays`, `ListRefresh.HalfListStays`). `ListRefresh.RefreshCompletes` says
  exactly what a start makes up for, and `ListRefresh.TwoStarts` what no number of starts does.
- A refresh rewrites the checkpoint that an unfinished sync would go on from, and such a sync would
  then append a second time what the refresh has read (`ListRefresh.ResumedAfterRefresh` and
  `ListRefresh.ResumedList` say which entries and lists come out right). The daemon gets there
  when the cached index is lost while the checkpoint is kept, or when a start fails to read the
  checkpoint at first and succeeds when the sync reads it again.
- A URI with a 21-character id is accepted but rebuilt with a leading zero
  (`SpotifyIds.UriRebuilt`), and a signed base-62 text is decoded without its sign
  (`SpotifyIds.SignDropped`).

## Model

| member | source | states |
|---|---|---|
| RecoveryHistories.OneCommandPerLifetime | daemon/recovery.go:408-464 | In every history, crashes and deletions at any moment included, a lifetime that sends a reboot command was started without finding a good flag and has sent no other command |
| RecoveryHistories.BetweenCommands | daemon/recovery.go:369-464 | Between two reboot commands the daemon was started and found no flag, and before that start the flag written for the first command was removed, unless the start could not read the file; for deletions at any moment |
| RecoveryHistories.RemovedBetweenExactly | daemon/recovery.go:369-464 | Between two reboot commands, if no flag is on disk at the start before the second, a flag was removed exactly when one was on disk as the first command went out or one was written after it; a flag that is on disk at that start could not be read |
| RecoveryHistories.RemovedBetweenCommands | daemon/recovery.go:363-385 | So it was whenever the flag was still on disk when the first command went out, which deletions between ticks guarantee |
| RecoveryHistories.MidRebootDeletion | daemon/recovery.go:369-385 | The other case occurs: a run in which a deletion takes key and flag away in the middle of a reboot, and after a restart another profile's Pi is rebooted with no removal between the commands |
| RecoveryHistories.UnreadFlag | daemon/recovery.go:408-418 | A start that can neither read nor remove the flag reboots a second time, with the first flag on disk all along |
| RecoveryHistories.CommandJustified | daemon/recovery.go:499-545 | A command follows the write of its own flag, on a tick whose probe saw the Pi reachable without internet, and no probe since one at least 15 s earlier in the same lifetime has seen anything else |
| RecoveryHistories.CommandCause | daemon/recovery.go:486-545 | Every command comes from a tick of the history that had that profile active with its key and saw that Pi reachable without internet at that time |
| RecoveryHistories.RebootExactly | daemon/recovery.go:478-545 | In every history a tick begins a reboot exactly when the lifetime's start found no flag, no command was sent since, the active profile has a key, the Pi is reachable without internet, every probe of the last 15 s and more saw the same, and the flag can be written |
| RecoveryHistories.IdleTickSkips | daemon/recovery.go:478-498 | An idle tick leaves everything as it is exactly when the reboot is used up or there is no active profile with a key |
| RecoveryHistories.FlagOnDiskWhenSending | daemon/recovery.go:535-553 | With deletions between ticks the flag for that profile and tick time is on disk when the command is sent, and stays there through the sending |
| RecoveryHistories.WaitsForFlag | daemon/recovery.go:408-464 | With deletions between ticks, between two ticks the manager waits exactly when a good flag is on disk that it has not failed to remove in this lifetime, and it waits for that very flag |
| RecoveryHistories.FailedRemovalLingers | daemon/recovery.go:594-605 | The exception is reached: from every flag that a start resumes from, a tick that sees the internet and cannot remove the file leaves the flag on disk with the manager idle |
| RecoveryHistories.OneTetheringPerLifetime | daemon/recovery.go:607-635 | The tethering setup is re-run at most once in a lifetime |
| RecoveryHistories.TetheringJustified | daemon/recovery.go:607-624 | It is re-run only right after a waiting tick that reached the Pi, in a lifetime in which an earlier one did not or the command was not delivered |
| RecoveryHistories.TetheringExactly | daemon/recovery.go:581-636 | In every history a tick re-runs the tethering setup exactly when it waits on without internet, reaches the Pi and can do so, there was a reason in this lifetime, and no waiting tick has reached the Pi since |
| RecoveryHistories.WaitEnds | daemon/recovery.go:581-606 | A tick ends the waiting exactly when ten minutes have passed or the internet is up |
| RecoveryHistories.RunInvariant | daemon/recovery.go:369-636 | After any sequence of events every log entry was rightful when it was appended, and file, memory and log agree |
| RecoveryHistories.AtomicRun | daemon/recovery.go:363-385 | The same with deletions between ticks, plus: each command directly follows the write of its flag, and the manager knows the flag on disk |
| RecoveryHistories.TickIsSteps | daemon/recovery.go:535-576 | A tick of the object is the history's steps begin, send and finish with no crash in between |
| RecoveryHistories.DeletionIsHalves | daemon/recovery.go:369-385 | A deletion of the flag's own profile is the removal of the file and the reset of the memory in a row |
| Recovery.BootOutcome | daemon/recovery.go:408-464 | A start waits exactly for a readable flag of the active profile at most ten minutes old, clears the other files, and any good flag it can read uses up the lifetime's reboot |
| Recovery.DeletionOutcome | daemon/recovery.go:369-385 | A deletion removes the file exactly when it can read the profile's own flag in it and remove it, and ends the wait for that flag only |
| Recovery.PiRecovery.Start | daemon/recovery.go:408-464 | The boot check leaves memory, file and log as the function on values says |
| Recovery.PiRecovery.TickOnce | daemon/recovery.go:466-475 | A tick is a waiting tick or an idle tick by the phase, and leaves the state the value functions say |
| Recovery.PiRecovery.RunIdleTick | daemon/recovery.go:478-533 | The idle tick: guards, the two probes, the window and the decision |
| Recovery.PiRecovery.RunIssueReboot | daemon/recovery.go:539-576 | Writes the flag first, gives up if that fails, sends the command, and then waits |
| Recovery.PiRecovery.RunWaitTick | daemon/recovery.go:581-636 | The waiting tick: timeout, internet, and the one re-run of the tethering setup |
| Recovery.PiRecovery.DeleteProfile | daemon/recovery.go:369-385 | Clears the file and the memory of a readable flag that belongs to the profile, and nothing else |
| Recovery.Device.Clear | daemon/recovery.go:681-686 | Removes the flag file, or fails to |
| Recovery.Device.Save | daemon/recovery.go:660-679 | Writes the whole flag, with its time cut to the second, or nothing |
| CatalogRefresh.AddedAndRemoved | daemon/voice_catalog.go:323-390 | If tracks were only added at the head, none of them known, and removed, the refreshed URIs are exactly the server's, whichever path is taken |
| CatalogRefresh.RefreshExact | daemon/voice_catalog.go:323-390 | For any cached list without repeats and any server list the refreshed URIs are the server's exactly when neither shortcut applies, and the list is read, or, behind its first known track, the server's list is what is left of the cached one |
| CatalogRefresh.UnchangedIs | daemon/voice_catalog.go:331-333 | The refresh takes the list for unchanged exactly when the total is the stored one and the newest 50 tracks are the head of the cache |
| CatalogRefresh.MovedToHead | daemon/voice_catalog.go:372-377 | A known track moved to the head defeats the length check: concrete lists for which the spliced result is wrong |
| CatalogRefresh.SplicedExactly | daemon/voice_catalog.go:372-377 | When the lengths add up, the splice has the server's URIs exactly when the rest of the server's list is a subsequence of the cached one |
| CatalogRefresh.UnchangedExactly | daemon/voice_catalog.go:331-333 | Equal totals and an equal first page mean an equal list exactly when the server's list is a subsequence of the cached one |
| CatalogRefresh.SubsequenceFrom | daemon/voice_catalog.go:372-374 | A subsequence that starts at a cached track lies behind that track |
| CatalogRefresh.LikedCache.Refresh | daemon/voice_catalog.go:277-283 | A failed fetch leaves the cache as it was, and otherwise it holds the planned list and the server's total |
| CatalogRefresh.LikedCache.RefreshLiked | daemon/voice_catalog.go:323-390 | Takes the path the plan says and returns its list, over any outcome of the fetches |
| CatalogRefresh.LikedCache.ReadUnknown | daemon/voice_catalog.go:335-371 | Reads exactly the unknown tracks before the first known one, and finds where the cache has that one |
| CatalogRefresh.LikedCache.BuildIndex | daemon/voice_catalog.go:335-342 | The index maps every non-empty cached URI to its first position |
| CatalogRefresh.FetchAllPaged | daemon/voice_catalog.go:392-410 | Returns the whole list or, only if a fetch fails, nothing |
| CatalogSync.AlwaysExact | daemon/voice_catalog.go:188-209 | Over any sequence of pages, failures, lost saves and restarts, memory and file hold exactly the server's first items of every list and exactly the tracks of the playlists gone through, without gap or repeat, for distinct playlist URIs |
| CatalogSync.ExactMeaning | daemon/voice_catalog.go:566-606 | An exact checkpoint has every playlist before the index with exactly its tracks, the current one with exactly the first so many and not yet all, and nothing else |
| CatalogSync.RestartResumes | daemon/voice_catalog.go:188-209 | A restart goes on from the last save that was not lost, and from scratch if nothing can be read |
| CatalogSync.ResumeLosesNothing | daemon/voice_catalog.go:188-209 | A sync that goes on from what the file held when another stopped ends where that one would have ended |
| CatalogSync.TracksStepExact | daemon/voice_catalog.go:566-606 | A turn of the playlist-tracks loop keeps that |
| CatalogSync.ListStepExact | daemon/voice_catalog.go:518-538 | A page of a list keeps it the server's prefix, complete when done |
| CatalogSync.ExpandedExactly | daemon/voice_catalog.go:566-606 | When the stage has gone through the checkpoint's list of playlists, every playlist among the server's first 200 is expanded exactly when none is missing from that list |
| CatalogSync.Checkpoint.TracksStage | daemon/voice_catalog.go:235-245 | When the stage finishes, and was not done before, every playlist is expanded exactly when none was missing from the list before the stage |
| CatalogSync.MissedBySync | daemon/voice_catalog.go:235-245 | Because a failed stage is passed over, the tracks stage can end early, and no later turn of the sync makes up for it |
| CatalogSync.StageEndExact | daemon/voice_catalog.go:566-606 | From an exact checkpoint the tracks stage, turn by turn, ends with exactly the tracks of every listed playlist |
| CatalogSync.Checkpoint.Run | daemon/voice_catalog.go:231-247 | Keeps checkpoint and file exact; stops early exactly when a pause was cut short; without lost saves the file holds the final checkpoint unless cancelled, and then all but the pages of the one list being read and skipped entries; when no stage failed, as when no fetch fails, the four lists are whole and every listed playlist is expanded, or the tracks stage as it was if it was done |
| CatalogSync.Checkpoint.SyncLiked | daemon/voice_catalog.go:496-516 | Ends with exactly the server's liked list, or stops with an exact prefix; without lost saves every page taken is in the file |
| CatalogSync.Checkpoint.ListStage | daemon/voice_catalog.go:235-248 | Advances one list and nothing else, and saves it exactly if the caller has not cancelled |
| CatalogSync.Checkpoint.TracksLoopTurn | daemon/voice_catalog.go:574-603 | One turn is one step of the function on values, saved exactly when it took a page, or a failed fetch that changes nothing |
| CatalogSync.Checkpoint.SyncPlaylistTracks | daemon/voice_catalog.go:566-606 | Keeps everything exact and, when it finishes, holds exactly the tracks of every playlist of the checkpoint, unless it was done already and changes nothing |
| CatalogSync.SyncList | daemon/voice_catalog.go:518-538 | Ends with exactly the server's list, or stops with an exact prefix |
| CatalogSync.Disk.SaveCheckpoint | daemon/voice_catalog.go:201-209 | The file holds the new checkpoint, or the old one when the save is lost |
| CatalogSync.LoadCheckpoint | daemon/voice_catalog.go:188-199 | Resumes from the saved checkpoint, or from scratch when it cannot be read |
| CatalogFetch.Fetcher.Do | daemon/voice_catalog.go:608-672 | The rounds of a call are well-formed, record the replies of exactly its fetches in order, and a success is a fetch's own answer; it ends as cancelled exactly when one of its pauses was cut short, and otherwise with the outcome of the first final fetch or by giving up after all of them |
| CatalogFetch.Fetcher.OutcomeExactly | daemon/voice_catalog.go:608-672 | Without cancellation the fetches alone decide: success, a rotated hash or a 400 by the first answer or fatal ordinary error among seven fetches, or eight if one is refused, and giving up exactly when there is none |
| CatalogFetch.Fetcher.RunRound | daemon/voice_catalog.go:611-660 | One round: which errors end the call, which force a fetch, which are retried and after what wait |
| CatalogFetch.FewFetches | daemon/voice_catalog.go:633-652 | At most seven ordinary fetches and at most one forced one |
| CatalogFetch.EndsAtOnce | daemon/voice_catalog.go:616-632 | An answer, a rotated hash or a 400 to an ordinary fetch ends the call at once, and the outcome says which |
| CatalogFetch.EarlierRoundsWaited | daemon/voice_catalog.go:644-671 | Every round but the last waited: what a 429 or a server error asked for, or else min(2 * 2^k, 60) s in round k |
| CatalogFetch.BackoffMeaning | daemon/voice_catalog.go:689-695 | Doubling with a cap is min(2 * 2^k, 60) |
| ListRefresh.RefreshCompletes | daemon/voice_catalog.go:258-315 | A start without failed fetches expands all of the server's first 200 playlists exactly when, with complete liked tracks, the sync before it stopped neither inside a playlist nor inside the list of playlists with one still to come, or, without, its tracks stage did not call itself done with one still to come; a refresh leaves entries for exactly the listed playlists |
| ListRefresh.TwoStarts | daemon/voice_catalog.go:258-315 | Two such starts expand everything exactly when one does or the liked tracks were not complete before |
| ListRefresh.NextStartAgain | daemon/voice_catalog.go:258-315 | With complete liked tracks, a second start leaves the checkpoint as the first one did while the library stays the same |
| ListRefresh.Refresh | daemon/voice_catalog.go:258-315 | Runs the sync when the liked tracks are not complete and refreshes otherwise; without failed fetches the checkpoint ends as the function on values says, and with failures each part is as before or refreshed |
| ListRefresh.MissedUntilRefresh | daemon/voice.go:166-170 | A reached history: what a sync missed because its list of playlists came late is there after the next start exactly when the liked tracks were complete, and after two starts in any case |
| ListRefresh.HalfReadStays | daemon/voice_catalog.go:457-459 | A reached history: a playlist that a sync read half is completed by the next start exactly when the liked tracks were not complete; otherwise it has the server's count stored and no start completes it |
| ListRefresh.HalfListStays | daemon/voice_catalog.go:419-421 | The same for a list of playlists that a sync read half |
| ListRefresh.RefreshAgain | daemon/voice_catalog.go:412-482 | A second refresh changes nothing while the server's counts stay the same, even if the library has changed |
| ListRefresh.EntriesAfter | daemon/voice_catalog.go:432-482 | For any checkpoint and library: exactly the playlists among the first 200 of the list have entries, with the server's counts; an entry whose stored count is right stays as it is and any other is the server's |
| ListRefresh.EntriesUpToDate | daemon/voice_catalog.go:590-592 | The sync stores the count with the first page, so every entry of an exact checkpoint passes for up to date |
| ListRefresh.ResumedAfterRefresh | daemon/voice_catalog.go:566-606 | A tracks stage that goes on from a refreshed checkpoint ends with the right tracks exactly for the playlists the sync was past or inside and the empty ones; every other entry holds its tracks twice |
| ListRefresh.ResumedTurn | daemon/voice_catalog.go:574-592 | Its first turn keeps the entry a prefix of the server's tracks exactly when the sync was inside that playlist or it is empty |
| ListRefresh.ResumedList | daemon/voice_catalog.go:518-538 | A list stage that goes on from a refreshed list ends with the server's list exactly when the sync had begun it or it is empty, and otherwise with the list twice |
| ListRefresh.StageAppends | daemon/voice_catalog.go:566-606 | Whatever the tracks stage starts from, it appends to each playlist exactly what was pending for it |
| ListRefresh.RefreshList | daemon/voice_catalog.go:412-430 | Reloads a list exactly when the counts differ, keeps it when a fetch fails, and leaves the sync's offset alone |
| ListRefresh.ReloadedExactly | daemon/voice_catalog.go:412-430 | A refreshed list stays exactly when the counts agree, and otherwise is the server's with its count and the sync's own progress |
| ListRefresh.RefreshPlaylistTracks | daemon/voice_catalog.go:432-482 | Reloads what is not up to date and drops what is no longer listed, over any outcome of the fetches; all is reached when none fails |
| ListRefresh.RefreshLists | daemon/voice_catalog.go:285-314 | Each list is as before or refreshed, the tracks follow the lists; the flag says whether the liked tracks or anything here changed, and the checkpoint is saved exactly then |
| ListRefresh.DropOthers | daemon/voice_catalog.go:473-479 | Drops exactly the entries and counts of playlists that are no longer listed |
| Levenshtein.LevRunes | daemon/voice_resolver.go:347-373 | The two swapped rows compute the recurrence over prefixes |
| Levenshtein.ShortestScript | daemon/voice_resolver.go:347-373 | A script of that many single-rune edits turns one text into the other |
| Levenshtein.NoShorterScript | daemon/voice_resolver.go:347-373 | No shorter script of insertions, deletions and substitutions does |
| Levenshtein.Identity | daemon/voice_resolver.go:347-373 | The distance is zero only between equal texts |
| Levenshtein.Symmetry | daemon/voice_resolver.go:347-373 | The distance is symmetric |
| Levenshtein.Triangle | daemon/voice_resolver.go:347-373 | The triangle inequality |
| Levenshtein.LengthBounds | daemon/voice_resolver.go:347-373 | The distance lies between the length difference and the longer length |
| Levenshtein.NormDist | daemon/voice_resolver.go:375-379 | The normalised distance lies in 0..1 and is 0 exactly on equal texts |
| ClockOffset.Estimator.Add | daemon/player_state.go:371-403 | Quarantine, confirmation, flush and window as the step on values |
| ClockOffset.Estimator.Offset | daemon/player_state.go:405-416 | The least sample of the window, if there is one |
| ClockOffset.OffsetMoves | daemon/player_state.go:371-416 | Over every history a sample moves the offset by at most 60 s, unless it and the one before were both further away, on the same side and within 60 s of each other; then the offset is the lower of the two |
| ClockOffset.WindowInvariant | daemon/player_state.go:371-403 | At most 16 samples, none more than 60 s above an earlier one, and a quarantined sample is the latest one and far away |
| ClockOffset.LoneOutlier | daemon/player_state.go:378-395 | An unconfirmed outlier changes no sample, and the next close sample leaves no trace of it |
| ClockOffset.ConfirmedJump | daemon/player_state.go:379-386 | Two far samples in a row that agree replace the window |
| ClockOffset.NeverQuarantines | daemon/player_state.go:371-403 | Samples within 0..60 s are never quarantined or flushed: the window is exactly the last 16 |
| ClockOffset.AgeWithinDelay | daemon/player_state.go:343-351 | With synchronised clocks the age added to a snapshot is between 0 and its true delay, and for a new snapshot it is the delay less the offset |
| ClockOffset.OffsetIsLeast | daemon/player_state.go:371-416 | With synchronised clocks the offset is known from the first update on that finds the clock synchronised, and is the least of the last 16 samples: the zero seed and the delay of each snapshot when first seen |
| ClockOffset.NeverAhead | daemon/player_state.go:334-361 | So at non-negative speed the projected position is neither ahead of the true one nor behind the snapshot |
| ClockOffset.CloseBehind | daemon/player_state.go:334-361 | At non-negative speed a playing snapshot of known age is projected to within a millisecond of where playback gets in that age plus the time since, which counts up to ten minutes |
| ClockOffset.FreshAge | daemon/player_state.go:343-351 | With synchronised clocks every snapshot seen for the first time has such an age: its delay less the offset, at most a minute |
| ClockOffset.PositionExactly | daemon/player_state.go:334-361 | For any state: the snapshot unless it is playing and was received, and otherwise the projection over the clamped age and elapsed time, to within a millisecond towards the snapshot |
| ClockOffset.ClusterTiming.NoteClusterTiming | daemon/player.go:551-571 | Seeds once the clock is synchronised, samples each snapshot once, and annotates and projects it |
| Mercury.RunConsistent | mercury/client.go:50-167 | In every run numbers go up by one modulo 2^64, a request is filed under its own number, gets at most one reply and none while outstanding, and until the numbers wrap each request is outstanding or answered |
| Mercury.SentFrame | mercury/client.go:135-157 | In every run a frame that went out for a request decodes to that request's number, and to its header and parts exactly when they fit 16 bits |
| Mercury.FreshNumbers | mercury/client.go:135-136 | No two frames sent for the first 2^64 requests of a run carry the same number |
| Mercury.OneReplyEach | mercury/client.go:122-133 | No reply channel is sent a second message |
| Mercury.ReplyEchoesNumber | mercury/client.go:104-133 | A packet is answered exactly when it is a whole frame with an outstanding number, and only to the request with that number; the others stay outstanding |
| Mercury.ResponseArrives | mercury/client.go:104-133 | A whole frame of any width that echoes an outstanding number answers that request with its header and the parts behind it, or with an error if the header does not parse or is missing |
| Mercury.AcceptOutcome | mercury/client.go:134-164 | A request is outstanding, with a frame sent, exactly when it was marshalled and sent, and is answered with the error otherwise |
| Mercury.FrameRoundTrip | mercury/client.go:138-156 | A frame decodes to what was encoded exactly when all sizes fit 16 bits |
| Mercury.DecodeRaw | mercury/client.go:68-103 | Numbers of two, four and eight bytes are understood, other widths and partial frames are not |
| Mercury.RequestArrives | mercury/client.go:187-192 | What is decoded from a request is its number, header and re-joined payload |
| Mercury.ChunksJoin | mercury/client.go:187-190 | Re-joining the chunks gives back the payload, each fits 16 bits, and there are as few as possible |
| Mercury.ChunkPayload | mercury/client.go:187-190 | The loop cuts the payload into those chunks |
| Mercury.JoinParts | mercury/client.go:219-222 | The loop joins the parts in order |
| Mercury.BuildFrame | mercury/client.go:138-156 | The loop writes the encoded frame |
| Mercury.CollectParts | mercury/client.go:112-120 | The loop reads the announced parts, zero-filled where the input ends early |
| Mercury.Client.AcceptRequest | mercury/client.go:134-164 | The request branch of the loop, including failed marshalling and sending |
| Mercury.Client.HandlePacket | mercury/client.go:61-133 | The packet branch of the loop, including malformed, partial, unknown and empty frames |
| ShannonStream.Delivered | ap/shannon.go:41-153 | For any legal mix of peeks and receives the receives return exactly the packets sent, in order, nonces in step, and push-back plus unread bytes is the rest of the stream |
| ShannonStream.TakeFrame | ap/shannon.go:98-153 | A frame at the head of the stream is received whole, whatever follows it, and exactly its bytes are used |
| ShannonStream.FrameLayout | ap/shannon.go:41-79 | A frame is the sealed type, length with the high byte first, and payload, and four bytes of code |
| ShannonStream.WrongCodeRefused | ap/shannon.go:141-150 | A frame with another code is used up and refused |
| ShannonStream.CutFrameShort | ap/shannon.go:98-147 | A stream that ends within a frame is used up without a packet |
| ShannonStream.NonceCounts | ap/shannon.go:55-58 | The first 2^32 packets have the nonces 0, 1, 2, ..., which then start again |
| ShannonStream.PeekOverrun | ap/shannon.go:81-110 | A peek of 9 bytes over a 7-byte packet leaves the other 2 pushed back |
| ShannonStream.StepKeepsStream | ap/shannon.go:81-153 | A peek changes nothing of the unconsumed stream and a receive takes off exactly the bytes it used |
| ShannonStream.StreamAppend | ap/shannon.go:55-76 | Sending appends the frame of the next nonce to the stream |
| ShannonStream.Conn.SendPacket | ap/shannon.go:41-79 | Refuses more than 65535 bytes, and otherwise writes the frame and moves to the next nonce |
| ShannonStream.Conn.PeekUnencrypted | ap/shannon.go:81-96 | Panics on pending push-back, fails on a short stream, and otherwise pushes back what it read |
| ShannonStream.Conn.ReceivePacket | ap/shannon.go:98-153 | Reads, opens and checks one packet from push-back and socket, short streams and wrong codes included |
| ShannonStream.EncryptInPlace | ap/shannon.go:59-60 | Seals the buffer in place |
| ShannonStream.DecryptInPlace | ap/shannon.go:128-139 | Opens the buffer in place |
| ShannonStream.SealConcat | ap/shannon.go:59-60 | Sealing in one call is sealing piece by piece, which lets header and payload be opened separately |
| ShannonStream.OpenSeal | ap/shannon.go:128-139 | Opening what was sealed gives it back |
| ReadyCallbacks.AtMostOnce | daemon/api_server.go:673-696 | Under every interleaving no callback runs twice |
| ReadyCallbacks.QuietAndReady | daemon/api_server.go:673-696 | With no call in progress and the flag up nobody is left waiting, and every registered callback has run |
| ReadyCallbacks.QuietAndNotReady | daemon/api_server.go:673-696 | With no call in progress and the flag down each registered callback has run or waits |
| ReadyCallbacks.RanBecause | daemon/api_server.go:673-696 | Every callback that has run was run by its own call, which saw the flag up after it was started, or by a call that had swapped the flag from down to up |
| ReadyCallbacks.WaitsBecause | daemon/api_server.go:687-695 | Every callback in the list saw the flag down when it was registered |
| ReadyCallbacks.NothingRuns | daemon/api_server.go:673-696 | If no call ever says that the player is ready, nothing runs, and with no call in progress every registered callback waits |
| ReadyCallbacks.FlagFollowsCalls | daemon/api_server.go:673-677 | The flag is up exactly when the latest swap was that of a call that says so |
| ReadyCallbacks.RunInvariant | daemon/api_server.go:673-696 | Every interleaving keeps the lock exclusive, each callback in one place, none lost, and a drainer on its way whenever someone waits while the flag is up |
| ReadyCallbacks.DrainedStep | daemon/api_server.go:674-680 | The flag is swapped outside the lock, and still no callback is stranded by that |
| Hashcash.CheckHashcash | login5/hashcash.go:12-27 | The walk from the last byte computes the recursive check |
| Hashcash.CheckMeaning | login5/hashcash.go:12-27 | It accepts exactly the non-empty hashes that, as big-endian numbers, are divisible by 2^length with length at most their bit size |
| Hashcash.IncrementHashcash | login5/hashcash.go:29-34 | The bytes become their successor in place and nothing else changes |
| Hashcash.SuccessorMeaning | login5/hashcash.go:29-34 | The successor is the number plus one modulo 256 to the number of bytes |
| Hashcash.SolveHashcash | login5/hashcash.go:36-64 | Returns the suffix of the least step that passes |
| Hashcash.SuffixesDistinct | login5/hashcash.go:61-62 | No suffix is tried twice within 2^64 steps |
| Hashcash.SuffixMeaning | login5/hashcash.go:38-40 | The first suffix is bytes 12 to 19 of the digest and eight zeros, and each next one counts both halves on by one |
| Hashcash.SearchEnds | login5/hashcash.go:44-63 | If any step passes, one of the first 2^64 does, so the search ends exactly then |
| Positional.RemainderIsModulo | login5/hashcash.go:12-34 | The remainder the two statements above use is the usual one |
| SpotifyIds.EncodeDecode | ids.go:90-111 | Every 16-byte id is written with exactly 22 base-62 characters and reads back as itself |
| SpotifyIds.DecodeEncode | ids.go:90-111 | A base-62 text of at most 22 characters decodes exactly when its value is below 2^128, panics otherwise, and re-encodes to itself padded to 22 |
| SpotifyIds.SignDropped | ids.go:103-108 | A leading sign is dropped when a bare base-62 text is decoded |
| SpotifyIds.WideEnough | ids.go:90-93 | 22 symbols hold any 128-bit number, so the padding never goes negative |
| SpotifyIds.Alphabet | ids.go:90-93 | The symbols are 0-9, a-z and A-Z in that order |
| SpotifyIds.ParseMatches | ids.go:13 | The URI parser accepts exactly the texts of the pattern, with those two groups |
| SpotifyIds.UriRoundTrip | ids.go:82-120 | The URI of an id reads back as that id exactly when its type is a run of lower-case letters |
| SpotifyIds.ShortDecodes | ids.go:103-111 | Every text of at most 21 base-62 characters decodes |
| SpotifyIds.UriRebuilt | ids.go:113-120 | A URI of the pattern is readable exactly when its id is below 2^128, as each 21-character id is, and makes the reader panic otherwise; it is rebuilt from what was read exactly when the id has 22 characters, and a 21-character id gains a zero |
| QueueExpansion.ComputeQueueExpansion | daemon/queue_expand.go:143-213 | The loops compute the expansion |
| QueueExpansion.FindActive | daemon/queue_expand.go:154-174 | The active track is found by id first and by URI as fallback |
| QueueExpansion.ActiveIndexMeaning | daemon/queue_expand.go:154-174 | That is the first entry with the id, or the first with the URI when no id matches |
| QueueExpansion.ExpansionMeaning | daemon/queue_expand.go:143-213 | There is an expansion exactly when the active track is in the context and the preview, less an echo of it, agrees with what follows; the result starts with the previewed URIs up to the cut |
| QueueExpansion.ExpansionOrder | daemon/queue_expand.go:176-213 | The queue is the context after the active track, wrapping around with repeat, cut to 100 |
| QueueExpansion.RepeatRotates | daemon/queue_expand.go:180-186 | With repeat the uncut queue permutes the whole context and ends on the active track |
| QueueExpansion.ShowTwice | daemon/queue_expand.go:123-127 | Applying the step to its own result changes nothing |
| QueueExpansion.ExpansionAccepted | daemon/queue_expand.go:188-207 | The expanded queue is itself an accepted preview exactly when it starts with an echo of the active track and every later entry has the first one's non-empty URI, or it does not and every entry has a non-empty URI |
| QueueExpansion.Expander.ExpandQueue | daemon/queue_expand.go:95-136 | Expands only from a usable cache entry, and starts at most one fetch per context |
| QueueExpansion.Expander.UsableExactly | daemon/queue_expand.go:95-118 | An entry is usable exactly while playing in order, for a playlist or the liked tracks, when it is less than ten minutes old and of the route needed now |
| QueueExpansion.LikedCollectionUris | daemon/queue_expand.go:68-73 | The liked tracks have two forms of URI, and a third in which prefix and suffix share their colon |
| QueueExpansion.TrackIdMeaning | daemon/queue_expand.go:241-246 | The id of a track is what follows the second colon of its URI |
| PlaylistTokens.PlaylistUrisInText | daemon/webapi_library.go:894-929 | Ends, and returns without repeats and in order of first appearance exactly the tokens with 20..25 id characters that the scan visits |
| PlaylistTokens.CollectedMeaning | daemon/webapi_library.go:894-929 | A list in order of first appearance has no repeats and holds exactly the visited tokens with 20..25 id characters |
| PlaylistTokens.IdBytesAreSymbols | daemon/webapi_library.go:897-899 | The id bytes are exactly the 62 symbols that ids are written with |
| PlaylistTokens.CandidateSize | daemon/webapi_library.go:916 | A visited token is taken exactly when its id has 20 to 25 characters |
| PlaylistTokens.FreeTokenVisited | daemon/webapi_library.go:906-927 | A token that does not start inside the id run of an earlier token is visited |
| PlaylistTokens.PassedOver | daemon/webapi_library.go:924-927 | A token that is passed over has its leading "spotify" at the end of the id run of a visited token |
| PlaylistTokens.NoOverlap | daemon/webapi_library.go:907-908 | Two occurrences of the prefix never overlap |

## Left out

- Levenshtein.NormDist: real division instead of 64-bit floating point; rounding is not modelled.
- ClockOffset.Estimator.Add: samples are unbounded integers; wrap-around of 64-bit differences, which needs timestamps 292 million years apart, is not modelled.
- ClockOffset.NeverAhead: the projection multiplies reals and truncates; the rounding of 64-bit floating point is not modelled.
- CatalogFetch.Fetcher.Do: the server is an unchanging list served in exact pages of 50 with its true total; pages shortened by filtered entries are not modelled, and a cancellation is an outcome of a pause rather than of a fetch; the rescrape that a rotated hash triggers is left out.
- CatalogRefresh.AddedAndRemoved: is about the URIs of the result; names of spliced tracks stay as cached.
- CatalogSync.AlwaysExact: the JSON encoding of the checkpoint is taken as faithful and its rename as atomic; the top-artists stage, progress reports and the phonetic index are left out, and its histories contain no refresh (ListRefresh.ResumedAfterRefresh says why a sync after one is not exact).
- CatalogSync.MissedBySync: the run starts from an empty checkpoint, the shortest of its kind.
- ListRefresh.Refresh: when the liked tracks are not complete it asks for a library that has not changed since the sync began, as the proof of the sync does.
- ListRefresh.ResumedAfterRefresh: the tracks stage goes by the list that the refresh left; a list stage before it that doubles an unfinished list is stated on its own in ListRefresh.ResumedList.
- Recovery.PiRecovery.RunIdleTick: the ssh session, the probes and the profile store are parameters of a tick; the rules for valid profile ids are part of whether the key exists.
- Recovery.Device.Save: the JSON form of the flag is taken as faithful and its rename as atomic.
- Mercury.Client.AcceptRequest: protobuf headers are opaque bytes that may fail to marshal or parse; timeouts and the closing of the access point are left out.
- ShannonStream.Conn.SendPacket: socket writes succeed; deadlines and locks are left out, since each direction is used by one caller at a time.
- ShannonStream.Delivered: the Shannon cipher itself is any lawful bytewise cipher.
- Hashcash.SolveHashcash: requires that some step passes, because the original loops for ever otherwise; the measured duration is left out.
- QueueExpansion.Expander.ExpandQueue: the background fetch, the pruning of the cache and the mapping of payload items are left out.
- PlaylistTokens.PlaylistUrisInText: the text is a sequence of characters that stand for bytes, and a position stands for the slice that is left.
- ReadyCallbacks.RunInvariant: callbacks are names; what a callback does, including a panic, is left out.
- The argmin loops over the catalog in the voice resolver, which would only add easy members.
- The queue resolver, the HTTP handlers, the Bluetooth, tethering, lyrics, Music Assistant and Home Assistant code.
