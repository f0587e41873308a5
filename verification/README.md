# open-vm-tools: a verified model of its stateful core

The project models the parts of open-vm-tools whose promises hold over whole runs rather than in one
branch, and proves those promises for all inputs, all environments and all interleavings.

| file | what it models |
|---|---|
| `GuestStoreRequest.dfy`, `GuestStoreClient.dfy` | the GuestStore download client: printing and sending the request, reassembling the response, storing the content, clean-up |
| `AttrCache.dfy` | the HGFS attribute cache in its two forms, hash table and linked list |
| `Readdir.dfy` | HGFS directory listing in batches with version fallback |
| `ChunkedIO.dfy` | HGFS reads and writes cut into requests of the negotiated size |
| `VersionNegotiation.dfy` | the per-operation version switches, and the delete and rename calls |
| `ToolsLog.dfy`, `LogLocks.dfy`, `LogCache.dfy`, `LogHandlers.dfy` | the tools logger: re-entrancy guards and VMX guest logger, lock order, suspension cache, handler ownership |
| `GuestStats.dfy` | the guest statistics handle |
| `ConfigStore.dfy`, `ConfigReload.dfy` | comparing, merging and reloading configuration dictionaries |
| `PathSeparators.dfy` | in-place removal of extra path separators |
| `CStrings.dfy`, `Basics.dfy` | C string search and tokens; the option type and the minimum, shared by the others |

Peers, servers, file systems, clocks and callbacks are oracles: functions from the number of a call to
what happens at it. A theorem about a method holds for every such function. Code that changes state is
modelled by classes and loops proved against functions; what the source promises is then proved about
those functions, over every run.

## Where the code does not keep a promise

- A name that cannot be escaped is meant to be skipped, but it is looked at again for the rest of its reply and its error then ends the whole listing (`Readdir.UnescapableEndsListing`, exact condition in `Readdir.ListingExactIff`).
- An invalidated entry of the hash-form attribute cache reads as fresh outside 22 April 2009 to 10 May 2077 (`AttrCache.InvalidatedHitsEarly`, exact condition for every run in `AttrCache.InvalidatedGetMissesIff`), and invalidating a directory also takes siblings whose name it is a prefix of (`AttrCache.FormsDisagree`, exact condition in `AttrCache.FormsAgreeIff`).
- A download whose last write falls short leaves a truncated file (`GuestStoreClient.TruncatedLeftover`). `GuestStoreClient.GetContent` gives the exact condition for every complete response, from how the receives split it and which writes fall short: the truncated file stays if and only if the first short write is the last one the content takes, or unlinking fails.
- A version 3 statistics reply whose count does not decode opens a session on the old table, and a lookup can then answer with another statistic (`GuestStats.BlindUpdateAnswersAnother`). The exact condition for trustworthy lookups is `GuestStats.UpdateSoundIff` for one update and `GuestStats.LookupSoundIff` for every run.
- Configuration reload misses an edit with an equal or older modification time, and, because one flag serves all callers, a deletion that another caller saw first (`ConfigReload.EqualTimeStale`, `ConfigReload.SharedFlagStale`, exact condition in `ConfigReload.ConfigIs`).
- Restoring read-only after a second denied delete or rename takes the owner's write permission from a file that had it (`VersionNegotiation.DeleteTakesWritePermission`, exact condition in `VersionNegotiation.RestoreUndoesIff`).
- Resuming log I/O flushes the cache without the guard that keeps handlers from being entered inside themselves (`ToolsLog.ResumeNests`). `ToolsLog.Logger.Resume` gives the exact condition for every configuration, host logging on or off: some log call on the way through the flush, of a handler, of the RPC layer or of the VMX logger itself, is at a level the handler takes; `CallsPast` walks through the flush up to the first such call. What that comes to for the levels that handlers log at is in `ToolsLog.Logger.FirstTakesPast`, `PlainPastIff`, `QuietPast` and `HarmlessPast`. Handlers still never go deeper than one call inside another (`ToolsLog.Logger.Run`).
- The comment at `libvmtools/vmtoolsLog.c:1231` says both file logger types count as the same when a handler is carried over; a domain that asks for `file+` never carries one over (`LogHandlers.FilePlusIsNew`, exact condition for the default domain in `LogHandlers.KeptAgainIff`). The comment before `HgfsRead` says it returns an error on failure; it returns the bytes read so far, which may be 0 (`ChunkedIO.Client.Read`). The comment before `HgfsStatusConvertToLinux` says unknown codes become protocol errors; they become I/O errors (`VersionNegotiation.ConvertStatus`). The model follows the code.

## Model

| member | source | states |
|---|---|---|
| GuestStoreRequest.EscapeIsClean | open-vm-tools/libguestStoreClient/guestStoreClientLib.c:643-692 | the printed path is at most three times as long and contains no space, question mark or NUL |
| GuestStoreRequest.EscapeIsMinimal | open-vm-tools/libguestStoreClient/guestStoreClientLib.c:673-685 | a path without blanks, percent signs and question marks is printed as it is |
| GuestStoreRequest.EscapeTriplets | open-vm-tools/libguestStoreClient/guestStoreClientLib.c:643-685 | every percent sign printed starts one of the three triplets |
| GuestStoreRequest.UnescapeEscape | open-vm-tools/libguestStoreClient/guestStoreClientLib.c:673-685 | percent-decoding (section 2.1 of RFC 3986) undoes the client's escaping |
| GuestStoreRequest.RequestRoundTrip | open-vm-tools/services/plugins/guestStore/guestStorePlugin.c:1865-1889 | every path the client accepts is what the service reads back from the request text, and the text fits 17 + 3 * 1024 characters |
| GuestStoreClient.ParsesResponse | open-vm-tools/libguestStoreClient/guestStoreClientLib.c:750-795 | a well-formed 200 header, cut at its blank line, parses to the size it announces whatever stands behind the cut |
| GuestStoreClient.AnnouncesDecimal | open-vm-tools/libguestStoreClient/guestStoreClientLib.c:783-795 | the first length line announces the number printed on it, for every number below 2^63 |
| GuestStoreClient.AtoiReads | open-vm-tools/libguestStoreClient/guestStoreClientLib.c:762-769 | a status is read as the number printed, with leading blanks and a sign |
| GuestStoreClient.RefusesResponse | open-vm-tools/libguestStoreClient/guestStoreClientLib.c:762-795 | a header with another status code of three digits, or with 200 and no length line, is refused: 404 as not found, 403 as forbidden, everything else as an error of the server |
| GuestStoreClient.HeaderEnds | open-vm-tools/libguestStoreClient/guestStoreClientLib.c:736-742 | whatever the status code, the first blank line of a stream that begins with a header is the end of that header |
| GuestStoreClient.HeaderEndSeen | open-vm-tools/libguestStoreClient/guestStoreClientLib.c:736-742 | the blank line is found exactly when the whole header has arrived, at its own place |
| GuestStoreClient.HeaderFound | open-vm-tools/libguestStoreClient/guestStoreClientLib.c:736-742 | conversely, a blank line found in what has arrived is the first one of the stream |
| GuestStoreClient.HeaderTotalsCount | open-vm-tools/libguestStoreClient/guestStoreClientLib.c:726-748 | the totals seen receive by receive end after the least number of receives that brings the header, whatever their sizes |
| GuestStoreClient.BodyTotalsCount | open-vm-tools/libguestStoreClient/guestStoreClientLib.c:851-885 | the same for the rest of the content, both ways: the number is reached exactly when nothing is missing |
| GuestStoreClient.CallCtx.RecvBytes | open-vm-tools/libguestStoreClient/guestStoreClientLib.c:538-575 | success takes 1 to max bytes from the stream into the buffer and nothing else changes; interrupts are retried; a broken receive and a closed peer each end in their own error, exactly when they happen, and take nothing |
| GuestStoreClient.CallCtx.SendBytes | open-vm-tools/libguestStoreClient/guestStoreClientLib.c:594-624 | success sends the bytes exactly once and in order; it fails if and only if the last send breaks, and has then sent a prefix of them |
| GuestStoreClient.CallCtx.PrintEscaped | open-vm-tools/libguestStoreClient/guestStoreClientLib.c:673-685 | the loop prints exactly the escaped path behind what the buffer held |
| GuestStoreClient.CallCtx.SendRequest | open-vm-tools/libguestStoreClient/guestStoreClientLib.c:643-692 | success has sent exactly the request text, which fits the buffer |
| GuestStoreClient.CallCtx.Store | open-vm-tools/libguestStoreClient/guestStoreClientLib.c:864-881 | the counter advances before the write; too many bytes, a short write and a cancel each end in their own error, exactly when they happen; the file grows by exactly the bytes written |
| GuestStoreClient.CallCtx.RecvHeaderText | open-vm-tools/libguestStoreClient/guestStoreClientLib.c:726-748 | success leaves a prefix of the stream with its first blank line in it; a header that fits the buffer is found at its own end, by exactly the receives it needs, however they split it |
| GuestStoreClient.CallCtx.ParseText | open-vm-tools/libguestStoreClient/guestStoreClientLib.c:750-795 | the verdict and the content size are those of the header text: tokens, a status number with blanks and sign, the length in wrapping 64-bit arithmetic; ParsesResponse and RefusesResponse say which verdict that is |
| GuestStoreClient.CallCtx.CutAndParse | open-vm-tools/libguestStoreClient/guestStoreClientLib.c:739-795 | the text is cut in place at the blank line and what stands behind it is untouched; the verdict is the one that the header calls for, whatever that is |
| GuestStoreClient.CallCtx.ReadHeader | open-vm-tools/libguestStoreClient/guestStoreClientLib.c:726-795 | success means that the buffer holds, behind the stream's first blank line, exactly what was taken; a header that comes complete gives its content size or the error it calls for |
| GuestStoreClient.CallCtx.SaveRest | open-vm-tools/libguestStoreClient/guestStoreClientLib.c:797-828 | the file is created and gets the bytes that came with the header; too many of them, a short write and a cancel end in their own errors |
| GuestStoreClient.CallCtx.RecvHeader | open-vm-tools/libguestStoreClient/guestStoreClientLib.c:711-831 | whatever the peer sends, an open file is a first part of what follows the stream's first blank line, and success leaves file, counter and stream in step; for a complete response the outcome is decided by its one write, if there is one; a header that is refused ends in its own error and creates nothing |
| GuestStoreClient.CallCtx.RecvBody | open-vm-tools/libguestStoreClient/guestStoreClientLib.c:851-885 | the file stays a first part of what follows the blank line; success ends with counter, size and file length equal; if the rest of the stream is the rest of the content, the first short write decides, counted by the receives it takes |
| GuestStoreClient.CallCtx.FreeResources | open-vm-tools/libguestStoreClient/guestStoreClientLib.c:365-408 | the file is closed, and removed exactly when this call created it, the counters differ and unlinking works |
| GuestStoreClient.Receive | open-vm-tools/libguestStoreClient/guestStoreClientLib.c:976-981 | success in any run means received equals size equals file length, and the file is what follows the blank line; a complete response is stored byte for byte if and only if no write falls short, for every way of splitting the stream; a header that is refused ends in its own error and creates nothing |
| GuestStoreClient.Download | open-vm-tools/libguestStoreClient/guestStoreClientLib.c:961-985 | the request, the response and the clean-up: what each outcome means for the file, with the exact condition under which a complete response leaves a truncated one, and nothing created for a header that is refused |
| GuestStoreClient.GetContent | open-vm-tools/libguestStoreClient/guestStoreClientLib.c:904-1016 | one whole call under any peer, kernel and file system: success means the request was sent and the file is exactly the announced number of bytes behind the stream's first blank line; a created file is removed exactly when the counters differ and unlinking works; a complete response ends in success with its content exactly when no write falls short, and otherwise leaves a truncated file exactly when the first short write is the last one it takes, or unlinking fails; a refused header ends in not found for 404, forbidden for 403 and a server error otherwise, and creates nothing; bad arguments, a missing initialisation and a failed connection are reported if and only if they are the case, and then nothing is sent or created |
| GuestStoreClient.TruncatedLeftover | open-vm-tools/libguestStoreClient/guestStoreClientLib.c:864-875 | a concrete call on a complete response of two bytes whose only write falls short: it fails, the counters are equal, and the truncated file is left in place |
| AttrCache.AgeOfStamp | open-vm-tools/vmhgfs-fuse/cache.c:334 | the age the source computes, with its truncation to int, is the true age of a stamp |
| AttrCache.InvalidatedMissesIff | open-vm-tools/vmhgfs-fuse/cache.c:319-344 | an invalidated entry counts as too old if and only if the clock is in the derived range |
| AttrCache.CasePrefixIff | open-vm-tools/vmhgfs-fuse/cache.c:463 | the prefix comparison holds if and only if each character compared is the same or the other case of the same letter, so a path that differs in more than case keeps its entry |
| AttrCache.Run | open-vm-tools/vmhgfs-fuse/cache.c:112-512 | both forms, driven by any run of calls, hold what the run functions say of the history the calls make |
| AttrCache.HashCache.Get | open-vm-tools/vmhgfs-fuse/cache.c:319-344 | the lookup with its time-to-live |
| AttrCache.HashCache.Set | open-vm-tools/vmhgfs-fuse/cache.c:363-394 | the entry is overwritten or inserted with a new stamp, all others are unchanged |
| AttrCache.HashCache.Invalidate | open-vm-tools/vmhgfs-fuse/cache.c:413-427 | a cached path loses its stamp, and a cached directory takes every path it is a case-insensitive prefix of with it |
| AttrCache.HashCache.InvalidateChildren | open-vm-tools/vmhgfs-fuse/cache.c:448-468 | exactly the entries with the prefix lose their stamps, in whatever order the table yields them |
| AttrCache.HashCache.Purge | open-vm-tools/vmhgfs-fuse/cache.c:489-512 | nothing below the threshold, otherwise entries go until fewer than half of it are left |
| AttrCache.ListCache.Find | open-vm-tools/vmhgfs-fuse/cache.c:122-137 | the walk stops at the path's node, or at the end exactly when the list does not hold it |
| AttrCache.ListCache.Get | open-vm-tools/vmhgfs-fuse/cache.c:112-141 | the list answers as a table would |
| AttrCache.ListCache.Set | open-vm-tools/vmhgfs-fuse/cache.c:160-194 | overwriting in place or prepending refines a table update; each path stays unique |
| AttrCache.ListCache.Invalidate | open-vm-tools/vmhgfs-fuse/cache.c:213-229 | unlinking refines removal of one path |
| AttrCache.ListCache.Purge | open-vm-tools/vmhgfs-fuse/cache.c:249-273 | exactly the entries older than the purge time go |
| AttrCache.HashState | open-vm-tools/vmhgfs-fuse/cache.c:319-512 | after any run, which paths the hash table holds, with which attributes and stamp, from the history alone |
| AttrCache.HashGetExact | open-vm-tools/vmhgfs-fuse/cache.c:319-468 | over all runs a get hits if and only if the latest set of the path is at most the timeout old and was neither purged nor invalidated since, by name or by cached directory prefix, and it returns that set's attributes |
| AttrCache.ListState | open-vm-tools/vmhgfs-fuse/cache.c:112-273 | after any run, which paths the list holds, from the history alone |
| AttrCache.ListGetExact | open-vm-tools/vmhgfs-fuse/cache.c:112-273 | the same exactness for the list form; its own purge never takes an entry that could still hit |
| AttrCache.FormsAgreeIff | open-vm-tools/vmhgfs-fuse/cache.c:112-512 | the exact condition under which both forms answer a get alike |
| AttrCache.FormsAgree | open-vm-tools/vmhgfs-fuse/cache.c:112-512 | without hash purges and without invalidations of cached directories both forms answer every get alike |
| AttrCache.FormsDisagree | open-vm-tools/vmhgfs-fuse/cache.c:448-468 | a run in which invalidating a directory makes the hash form, not the list form, forget a sibling |
| AttrCache.InvalidatedGetMissesIff | open-vm-tools/vmhgfs-fuse/cache.c:319-468 | over all runs, a path that is cached and was invalidated since its latest set misses if and only if the clock is in the derived range |
| AttrCache.InvalidatedHitsEarly | open-vm-tools/vmhgfs-fuse/cache.c:413-427 | a run, in 2001, after which an invalidated path still hits |
| Readdir.Client.RequestDirEntries | open-vm-tools/vmhgfs-fuse/dir.c:456-516 | the request is retried at older versions until one is not refused; the switch keeps that version; the reply is the batch at the offset |
| Readdir.Negotiate | open-vm-tools/vmhgfs-fuse/dir.c:496-504 | the version settled on is the newest one, from the switch down, that is not refused, after one request for each newer one |
| Readdir.ReadDirFromReply | open-vm-tools/vmhgfs-fuse/dir.c:238-435 | the filler gets exactly what one reply delivers and the position advances accordingly, or the filler ran full within it; an unescapable name, an over-long one and the end of the directory end it each in its own way |
| Readdir.ReadRound | open-vm-tools/vmhgfs-fuse/dir.c:572-597 | one request and the walk over its reply make one step of the listing |
| Readdir.Readdir | open-vm-tools/vmhgfs-fuse/dir.c:555-604 | the loop ends; the filler gets the whole listing with its code, or ran full on a proper prefix |
| Readdir.WalkExact | open-vm-tools/vmhgfs-fuse/dir.c:276-430 | a reply delivers what is reached in its stretch of the directory and leaves the rest to reach, or meets the first name that cannot be escaped |
| Readdir.ReachedIsVisibleIff | open-vm-tools/vmhgfs-fuse/dir.c:345-365 | all visible entries are reached if and only if every name of legal length can be escaped |
| Readdir.ListingExact | open-vm-tools/vmhgfs-fuse/dir.c:555-604 | for every directory, every batching, every mid-listing fallback and failure: the listing delivers what is reached, each entry once and in server order, or, if a request fails, a prefix of it and that request's error |
| Readdir.ListingExactIff | open-vm-tools/vmhgfs-fuse/dir.c:555-604 | against any server that does not fail the listing is exactly the visible entries with a good end if and only if every name of legal length can be escaped |
| Readdir.UnescapableEndsListing | open-vm-tools/vmhgfs-fuse/dir.c:357-365 | one such name in front hides all others and fails the listing |
| ChunkedIO.MaxIOSize | open-vm-tools/vmhgfs-fuse/file.c:678-687 | the chunk size is positive and at most the large I/O limit, also where the 32-bit subtraction wraps |
| ChunkedIO.SpliceJoin | open-vm-tools/vmhgfs-fuse/file.c:909-927 | two adjacent writes are one write |
| ChunkedIO.SpliceReads | open-vm-tools/vmhgfs-fuse/file.c:707-745 | reading a written range gives what was written, bytes outside are as before, and a gap is zero |
| ChunkedIO.Client.DoRead | open-vm-tools/vmhgfs-fuse/file.c:546-659 | the last answer decides: an error with its code, or up to count of the server's bytes at the offset; the switch falls back from version 3 to 1 exactly when the first request is refused as an unknown protocol, which is then the one retry; nothing else in the buffer changes |
| ChunkedIO.Client.Read | open-vm-tools/vmhgfs-fuse/file.c:707-745 | for any short replies exactly the returned length is the server's bytes; the tail is zeroed without an error and untouched after one, and there is one if and only if the last answer is bad for the size that was asked for last; if no reply is empty early, the length is that of one big read; the loop ends within count + 2 requests; the switch has fallen back exactly when some answer at version 3 refused the protocol, and against a server that refuses nothing but version 3 nothing fails |
| ChunkedIO.Client.DoWrite | open-vm-tools/vmhgfs-fuse/file.c:768-872 | an error that changes nothing, or a prefix of the data spliced into the file; the switch falls back exactly when the first request, at version 3, is refused as an unknown protocol |
| ChunkedIO.Client.Write | open-vm-tools/vmhgfs-fuse/file.c:892-934 | the file becomes the old one with a prefix of the buffer spliced in; its length is the result, or an error hides it; with replies that always make progress the whole buffer is written; the switch has fallen back exactly when some answer at version 3 refused the protocol |
| VersionNegotiation.ConvertStatus | open-vm-tools/vmhgfs-fuse/fsutil.c:621-670 | exactly one status means a refused version, three mean denied access, and no unknown one does |
| VersionNegotiation.StatusesOf | open-vm-tools/vmhgfs-fuse/fsutil.c:621-670 | for each error code exactly the statuses that come to it |
| VersionNegotiation.OutcomeIs | open-vm-tools/vmhgfs-fuse/file.c:412-472 | when a call succeeds, statfs also on one error, and which code it reports when it does not |
| VersionNegotiation.Session.ResetOps | open-vm-tools/vmhgfs-fuse/filesystem.c:82-102 | every switch is back at version 3 |
| VersionNegotiation.Session.Attempt | open-vm-tools/vmhgfs-fuse/fsutil.c:467-525 | one pass of a retry loop: unless packing fails the request goes out at the switch's version, the switch falls back exactly when the server refuses it with an older one left, and the status is converted |
| VersionNegotiation.Session.Perform | open-vm-tools/vmhgfs-fuse/file.c:412-472 | a retry loop sends at most one request more than the operation has downgrades left, touches no other switch, does not stop on a refused version with an older one left, and reports the last status |
| VersionNegotiation.Session.SetAttributes | open-vm-tools/vmhgfs-fuse/file.c:1385-1444 | the attributes are put on that path, the result is what the last attempt comes to, and it is 0 exactly when the last set-attributes request succeeded |
| VersionNegotiation.Session.ClearReadOnly | open-vm-tools/vmhgfs-fuse/fsutil.c:721-759 | success means that the server accepted the attributes found, the cached ones if there are any and otherwise those that a successful get brought, with the owner's write permission set and all else as found; otherwise the result is what the last attempt to get or to put them comes to, and which of the two it was; nothing else is put and no other kind of request is sent |
| VersionNegotiation.Session.RestoreReadOnly | open-vm-tools/vmhgfs-fuse/fsutil.c:781-798 | the attributes last put are those found, with the owner's write permission taken away and all else as found, on the same path |
| VersionNegotiation.Session.Turn | open-vm-tools/vmhgfs-fuse/dir.c:866-972 | one pass of that loop either ends the call as it should end or leaves a state from which it goes on, with fewer passes left; a denied pass clears once and ends the second time |
| VersionNegotiation.RestoreUndoesIff | open-vm-tools/vmhgfs-fuse/fsutil.c:721-798 | after any call that restores, the attributes put last are those found if and only if the owner could not write |
| VersionNegotiation.Session.Insist | open-vm-tools/vmhgfs-fuse/dir.c:859-973 | the shared loop: at most three requests; read-only tried to be cleared exactly when one is denied; restored if and only if, after a successful clear, a second one is denied, on the same path and from the attributes found; the result is exactly that of the last attempt or, after a clear that failed, what the clear's own last attempt comes to; it does not give up early; denied, cleared and denied again restores; cleared and not restored, the file is left with the owner's write permission set and all else as found |
| VersionNegotiation.Session.Delete | open-vm-tools/vmhgfs-fuse/dir.c:832-978 | the same for deleting a file or directory |
| VersionNegotiation.Session.RenameFile | open-vm-tools/vmhgfs-fuse/file.c:953-1135 | the same for renaming, with the target's attribute |
| VersionNegotiation.DeleteTakesWritePermission | open-vm-tools/vmhgfs-fuse/dir.c:859-973 | a concrete delete, denied twice, that leaves a file its owner could write without that permission |
| VersionNegotiation.DowngradesBounded | open-vm-tools/vmhgfs-fuse/filesystem.c:44-102 | in every run between resets downgrades made and downgrades left add up to 19 |
| VersionNegotiation.VersionsNeverRise | open-vm-tools/vmhgfs-fuse/file.c:444-457 | in every run no operation is sent above a version the server refused before |
| VersionNegotiation.Run | open-vm-tools/vmhgfs-fuse/filesystem.c:82-102 | both hold after any sequence of calls and resets under any server, and after a reset every version is 3 again |
| ToolsLog.Logger.Foreign | open-vm-tools/libvmtools/vmtoolsLog.c:576-629 | any number of log calls made by the RPC layer or a handler end, leave both guards as they were, never nest the VMX logger, and nest a handler only inside a flush and then once; they leave the logger exactly where the walk past the handler says, or one of them has entered it |
| ToolsLog.Logger.LogMsg | open-vm-tools/libvmtools/vmtoolsLog.c:544-573 | one handler call for each pending header line and one for the message, one after the other, unless the handler logs while handlers are on |
| ToolsLog.Logger.LogInt | open-vm-tools/libvmtools/vmtoolsLog.c:643-728 | exactly those handler calls if the level passes, no handler is running and I/O is not suspended for it; a suspended message goes to the cache or counts as dropped; otherwise nothing; the guard is restored |
| ToolsLog.Logger.LogToHost | open-vm-tools/libvmtools/vmtoolsLog.c:742-787 | the glib guard is restored and the message is one step of the VMX logger |
| ToolsLog.Logger.LogToGuest | open-vm-tools/libvmtools/vmtoolsLog.c:799-822 | the glib guard is restored, the VMX logger is untouched, and the handler calls or the cache are those of the message |
| ToolsLog.Logger.Log | open-vm-tools/libvmtools/vmtoolsLog.c:836-844 | a message goes to the host exactly once and then to the guest |
| ToolsLog.Logger.Wrapper | open-vm-tools/libvmtools/vmtoolsLog.c:1724-1767 | with glib logging stopped a call cannot reach the VMX logger; otherwise it is one step of it |
| ToolsLog.Logger.VmxGuestLog | open-vm-tools/libvmtools/vmtoolsLog.c:2067-2119 | a masked message does nothing at all; one that passes the mask with the channel up gets exactly one successful RPC or leaves the logger off with the channel destroyed; the mode only degrades |
| ToolsLog.Logger.DestroyChannel | open-vm-tools/libvmtools/vmtoolsLog.c:1818-1835 | the channel is gone, and log calls made on the way change nothing else once logging is stopped or off |
| ToolsLog.Logger.CreateChannel | open-vm-tools/libvmtools/vmtoolsLog.c:1783-1806 | a channel that is up is kept as it is; otherwise success has made a new one and failure leaves none; from off, success means that the channel is up and the logger still off |
| ToolsLog.Logger.LoadFallbackSetting | open-vm-tools/libvmtools/vmtoolsLog.c:1904-1951 | fallback mode exactly for a vmx handler with a level that passes anything |
| ToolsLog.Logger.SetupLevelAndMode | open-vm-tools/libvmtools/vmtoolsLog.c:1969-2054 | the logger ends on exactly with its channel up and a non-empty mask, the mode and mask come from where they should, although messages logged on the way can degrade it; if every RPC works it is on exactly when the mask asked for is not empty, in text mode exactly when that is configured |
| ToolsLog.Logger.Setup | open-vm-tools/libvmtools/vmtoolsLog.c:2566-2647 | after setup a logger that is off has no channel and the guards are at rest; if every RPC works its mode is exactly the configured one, off for an empty mask, and in any case mode and mask come from where they should; a configuration that does not load only lets messages degrade it; a refresh makes a new channel and without one a channel that works is kept |
| ToolsLog.Logger.Teardown | open-vm-tools/libvmtools/vmtoolsLog.c:2661-2685 | the channel is gone and the mode did not rise |
| ToolsLog.Logger.LogAll | open-vm-tools/libvmtools/vmtoolsLog.c:2067-2119 | over any run of messages the host gets the first k that pass the mask, once each and in order; the logger is off without channel exactly when some are missing, which needs a failing RPC |
| ToolsLog.DeliveredIsPrefix | open-vm-tools/libvmtools/vmtoolsLog.c:2067-2119 | the same about any sequence of logger states |
| ToolsLog.PassingIs | open-vm-tools/libvmtools/vmtoolsLog.c:2072-2074 | the messages that pass the mask are all those at its levels, in order |
| ToolsLog.DeepestCalls | open-vm-tools/libvmtools/vmtoolsLog.c:544-573 | handler calls one after the other never nest, wherever they start |
| ToolsLog.Logger.Flush | open-vm-tools/libvmtools/vmtoolsLog.c:2173-2178 | each held message is one handler call, the header lines first if pending; the flush ends exactly where the walk past the handler says, or, when a log call on the way is at a level of the handler, has nested it, once and not deeper |
| ToolsLog.Logger.Resume | open-vm-tools/libvmtools/vmtoolsLog.c:2159-2187 | the cache is empty and the guards are at rest; in every configuration and environment the handler is entered inside itself if and only if logging is on and a log call on the way through the flush is at a level it takes |
| ToolsLog.Logger.QuietPast | open-vm-tools/libvmtools/vmtoolsLog.c:667-722 | handler calls that log nothing that the handler or the host takes show one after the other and nothing else happens |
| ToolsLog.Logger.FirstTakesPast | open-vm-tools/libvmtools/vmtoolsLog.c:742-822 | in every configuration, if the first handler call that logs anything with an effect logs at a level of the handler, the handler is entered inside itself |
| ToolsLog.Logger.PlainPastIff | open-vm-tools/libvmtools/vmtoolsLog.c:742-822 | if the host takes no level that the handler does not, it is entered inside itself if and only if some handler call logs something with an effect |
| ToolsLog.Logger.HarmlessPast | open-vm-tools/libvmtools/vmtoolsLog.c:2067-2119 | if the handler takes no level that foreign code or the VMX logger logs at, no flush nests it |
| ToolsLog.ResumeNests | open-vm-tools/libvmtools/vmtoolsLog.c:2173-2178 | a concrete logger whose resume enters the handler inside itself |
| ToolsLog.Logger.Run | open-vm-tools/libvmtools/vmtoolsLog.c:586-844 | after any run of log, setup, teardown, suspend and resume calls the guards are at rest, the VMX logger never nested, handlers at most once and not at all without a resume or with a handler that takes no level anyone logs at, off means no channel, and without a setup the mode never rises; the last call of the run has brought about what it is for |
| LogLocks.RunInv | open-vm-tools/libvmtools/vmtoolsLog.c:1724-1767 | in every interleaving no mutex is held by two threads |
| LogLocks.RunningHolds | open-vm-tools/libvmtools/vmtoolsLog.c:758-786 | in every reachable state whatever runs holds the log-state mutex, and the VMX guest logger, its setup and its teardown hold both |
| LogLocks.OneInside | open-vm-tools/libvmtools/vmtoolsLog.c:1724-1767 | so no two threads are ever inside the logger at the same time |
| LogLocks.VmxImpliesLogState | open-vm-tools/libvmtools/vmtoolsLog.c:758-786 | whoever holds the VMX guest log mutex holds the log-state mutex |
| LogLocks.HolderRuns | open-vm-tools/libvmtools/vmtoolsLog.c:2621-2647 | in every reachable state a thread that others wait for is not waiting itself |
| LogLocks.NoDeadlock | open-vm-tools/libvmtools/vmtoolsLog.c:2674-2682 | for any number of threads no reachable state has a set of threads waiting for each other |
| LogLocks.ReversedOrderDeadlocks | open-vm-tools/libvmtools/vmtoolsLog.c:764-776 | with the mutexes taken in the other order a run deadlocks |
| LogCache.Log.LogInt | open-vm-tools/libvmtools/vmtoolsLog.c:667-722 | a message is given to its handler at once unless I/O is suspended and the handler writes to files; then it is cached, or dropped, itself or in place of the oldest |
| LogCache.Log.Resume | open-vm-tools/libvmtools/vmtoolsLog.c:2159-2187 | the loop flushes the cache in order, then the counts are logged and the drop count is reset |
| LogCache.Play | open-vm-tools/libvmtools/vmtoolsLog.c:2145-2187 | any run of calls on a new log gives the state that the run function says |
| LogCache.CacheIsLastOfBurst | open-vm-tools/libvmtools/vmtoolsLog.c:667-722 | over all runs the cache is the last min(n, cap) suspended file-handler messages in order and the drop counter counts the rest |
| LogCache.GivenExactly | open-vm-tools/libvmtools/vmtoolsLog.c:667-722 | over all runs what is accepted is exactly what was submitted, and what is emitted is exactly, in order, each message that was not held back at its own time and at each resume the last held ones and the counts |
| LogCache.LostExactly | open-vm-tools/libvmtools/vmtoolsLog.c:704-716 | over all runs what is lost is exactly, burst by burst, the oldest messages that do not fit |
| LogCache.ResumeLosesNothing | open-vm-tools/libvmtools/vmtoolsLog.c:2159-2187 | a resume loses nothing |
| LogCache.NeverSuspended | open-vm-tools/libvmtools/vmtoolsLog.c:667-722 | in a run without a suspension everything is emitted at once and in order, and nothing is held or lost |
| LogCache.OthersMissNothing | open-vm-tools/libvmtools/vmtoolsLog.c:667-722 | over all runs a handler that does not write to files is given everything logged to it, in order |
| LogCache.Conservation | open-vm-tools/libvmtools/vmtoolsLog.c:667-722 | over all runs accepted = emitted + dropped + cached, as multisets |
| LogCache.EmittedInOrder | open-vm-tools/libvmtools/vmtoolsLog.c:2159-2187 | over all runs each handler's emitted messages are a subsequence of its submissions in order |
| LogHandlers.LogSystem.ResetLogging | open-vm-tools/libvmtools/vmtoolsLog.c:1311-1347 | the error handlers always go, a hard reset destroys all others, each exactly once |
| LogHandlers.LogSystem.HoldBack | open-vm-tools/libvmtools/vmtoolsLog.c:1472-1478 | the handlers in use become the old ones and none is lost |
| LogHandlers.LogSystem.GetLogHandler | open-vm-tools/libvmtools/vmtoolsLog.c:977-1072 | a new handler, recorded with its domain, the data that a file kind works out and no data for the others; both file kinds are recorded as "file" |
| LogHandlers.LogSystem.TakeNamed | open-vm-tools/libvmtools/vmtoolsLog.c:1245-1258 | the first old domain of the name gives its handler exactly when kind and data agree; without one of that name nothing is taken; the others stay |
| LogHandlers.LogSystem.TakeOld | open-vm-tools/libvmtools/vmtoolsLog.c:1234-1258 | which old handler is carried over: the default one of the asked kind first, otherwise the first of the name, and only with the same data; none for a domain asking for "file+" or when nothing matches |
| LogHandlers.FilePlusIsNew | open-vm-tools/libvmtools/vmtoolsLog.c:1228-1243 | a domain that asks for "file+" gets a new handler, whatever the old ones are |
| LogHandlers.KeptAgainIff | open-vm-tools/libvmtools/vmtoolsLog.c:1228-1258 | a default handler is kept by the very configuration it was made for if and only if that does not ask for "file+" and either names no data or is a file whose path is the name given |
| LogHandlers.ChosenAsFirst | open-vm-tools/libvmtools/vmtoolsLog.c:1244-1258 | for a domain named for the first time, what has been configured before it changes nothing in the choice |
| LogHandlers.OwnDomainsAre | open-vm-tools/libvmtools/vmtoolsLog.c:1501-1520 | the domains that get a handler of their own are exactly those of the configuration with a name that is not empty, not too long and not the default one, and with a level |
| LogHandlers.LogSystem.CreateErrorHandlers | open-vm-tools/libvmtools/vmtoolsLog.c:1481-1496 | the handlers for fatal errors are recorded with exactly their kinds and masks |
| LogHandlers.LogSystem.ConfigDomain | open-vm-tools/libvmtools/vmtoolsLog.c:1119-1294 | a usable domain is put to use by the handler that is chosen for it, an old one of its kind and data or a new one with its domain, kind, data and mask; an unusable one changes nothing; asking for "file+" takes no old handler; the handlers of the domains before it stay as they are, and every handler stays in exactly one place |
| LogHandlers.LogSystem.ConfigLogging | open-vm-tools/libvmtools/vmtoolsLog.c:1472-1605 | across a reconfiguration every handler is in use once or destroyed once, and in the end every usable domain of the configuration is served, in order, by a handler of its kind and mask; the default domain, and each other one at its first mention, by the handler chosen among those in use before: kept if kind and data agree, new otherwise |
| LogHandlers.LogSystem.Run | open-vm-tools/libvmtools/vmtoolsLog.c:1472-1605 | over any run of reconfigurations no live handler is destroyed, none is destroyed twice, none is in use twice, and the last configuration is in force |
| GuestStats.Negotiate | open-vm-tools/libguestlib/vmGuestLib.c:355-447 | the reply taken is the last one received, its session agrees with the handle's unless that was cleared, and the number of requests is bounded |
| GuestStats.AtMostThree | open-vm-tools/libguestlib/vmGuestLib.c:355-447 | whatever the host replies, one update sends one to three requests |
| GuestStats.ThreeNeeded | open-vm-tools/libguestlib/vmGuestLib.c:389-397 | three are reached when the session changed and the host knows version 2 only |
| GuestStats.FirstReplyDecides | open-vm-tools/libguestlib/vmGuestLib.c:355-447 | an update asks at the handle's version, or at 3 when that is not settled; it starts over as from a fresh handle when the session has changed, and at version 2 when version 3 is refused |
| GuestStats.Handle.Request | open-vm-tools/libguestlib/vmGuestLib.c:366-447 | the loop computes the negotiation |
| GuestStats.Handle.Unmarshal | open-vm-tools/libguestlib/vmGuestLib.c:536-551 | the loop stops at the first entry that fails to decode or is out of place, leaving the buffer accordingly |
| GuestStats.Handle.StoreV2 | open-vm-tools/libguestlib/vmGuestLib.c:456-486 | version and size checks, then the reply is the table |
| GuestStats.Handle.StoreV3 | open-vm-tools/libguestlib/vmGuestLib.c:487-568 | what each check, the count clamp and a failed entry leave in the handle |
| GuestStats.Handle.UpdateInfo | open-vm-tools/libguestlib/vmGuestLib.c:586-611 | one update, errors clearing the session, within three requests |
| GuestStats.GetStat | open-vm-tools/libguestlib/vmGuestLib.c:673-693 | the argument checks and the lookup at both versions |
| GuestStats.AcceptCoherentIff | open-vm-tools/libguestlib/vmGuestLib.c:487-568 | after a reply is accepted the table is in order unless its count was lost and the old table was not |
| GuestStats.UpdateCoherentIff | open-vm-tools/libguestlib/vmGuestLib.c:355-568 | the exact condition under which an update leaves a table with every entry in its place |
| GuestStats.InfoIff | open-vm-tools/libguestlib/vmGuestLib.c:487-611 | the exact condition under which there is information after an update, and which error it reports; after an error nothing but the session has changed |
| GuestStats.LookupAfterUpdate | open-vm-tools/libguestlib/vmGuestLib.c:673-693 | every lookup then gives the statistic asked for, with the value that the accepted reply carries at its place, or says that it is not available or not known |
| GuestStats.TableAfter | open-vm-tools/libguestlib/vmGuestLib.c:521-565 | the table after a reply, complete or not: the reply's entries up to and with the one that stopped it, the old table behind them, at most 38 in use, and a session exactly when none was missing |
| GuestStats.SoundV3Iff | open-vm-tools/libguestlib/vmGuestLib.c:673-693 | no lookup at version 3 returns another statistic if and only if every valid entry is in its place |
| GuestStats.UpdateSoundIff | open-vm-tools/libguestlib/vmGuestLib.c:355-568 | after an update no lookup returns another statistic if and only if the count was not lost or the table from before has every valid entry in its place |
| GuestStats.LookupSoundIff | open-vm-tools/libguestlib/vmGuestLib.c:506-565 | the same after every run of updates of a fresh handle |
| GuestStats.FailedEntryMeansNoInfo | open-vm-tools/libguestlib/vmGuestLib.c:552-565 | an entry that fails makes every later lookup report no information, although the update reports success |
| GuestStats.BlindUpdateAnswersAnother | open-vm-tools/libguestlib/vmGuestLib.c:516-519 | a run in which statistic 7 is answered for statistic 1, so that lookups are not sound |
| GuestStats.Run | open-vm-tools/libguestlib/vmGuestLib.c:586-611 | any number of updates of a fresh handle |
| ConfigStore.CompareConfig | open-vm-tools/libvmtools/vmtoolsConfig.c:276-406 | true if and only if both dictionaries are absent or hold the same groups, keys and values, from one-sided checks and counts |
| ConfigStore.CompareGroup | open-vm-tools/libvmtools/vmtoolsConfig.c:328-387 | the same for the keys of one group |
| ConfigStore.MergeLookup | open-vm-tools/libvmtools/vmtoolsConfig.c:196-261 | in a merge the destination wins on every key, the source supplies the rest, and a group appears only for a key |
| ConfigStore.MergeUnchangedIff | open-vm-tools/libvmtools/vmtoolsConfig.c:196-261 | a merge changes nothing if and only if the destination has every key of the source |
| ConfigStore.MergeIdempotent | open-vm-tools/libvmtools/vmtoolsConfig.c:196-261 | a second merge of the same source adds nothing |
| ConfigStore.AddConfig | open-vm-tools/libvmtools/vmtoolsConfig.c:196-261 | the destination becomes the merge, also when it is the source itself, and the result says whether it changed |
| ConfigReload.Loader.LoadConfig | open-vm-tools/libvmtools/vmtoolsConfig.c:86-179 | one load: which dictionary is taken, the caller's variables and the shared flag; a newer file of size 0 gives an empty dictionary, one that does not parse changes nothing |
| ConfigReload.Run | open-vm-tools/libvmtools/vmtoolsConfig.c:86-179 | any run of loads by any callers |
| ConfigReload.HadIff | open-vm-tools/libvmtools/vmtoolsConfig.c:114-137 | the shared flag is down exactly when some load found no file and none found one since |
| ConfigReload.SlotOrigin | open-vm-tools/libvmtools/vmtoolsConfig.c:86-179 | a caller's variables come from the newest file it found since its last reset |
| ConfigReload.UntimedOrigin | open-vm-tools/libvmtools/vmtoolsConfig.c:86-179 | a caller that passes no modification time has what its last readable file since its last reset held |
| ConfigReload.ConfigIs | open-vm-tools/libvmtools/vmtoolsConfig.c:86-179 | after any run, what a caller's configuration is, if and only if, from the history alone |
| ConfigReload.ReloadCoherent | open-vm-tools/libvmtools/vmtoolsConfig.c:86-179 | for a single caller and growing modification times, after every load the configuration is what the file holds, or empty without one or when the file has size 0 |
| ConfigReload.LoadsOfRisingWorld | open-vm-tools/libvmtools/vmtoolsConfig.c:139-142 | loads at any moments of a history in which every edit has a larger modification time than any before satisfy that condition |
| ConfigReload.EqualTimeStale | open-vm-tools/libvmtools/vmtoolsConfig.c:139-142 | an edit with an equal modification time is not seen |
| ConfigReload.SharedFlagStale | open-vm-tools/libvmtools/vmtoolsConfig.c:129-132 | a caller keeps its old configuration when another one saw the deletion first |
| PathSeparators.StripExtraPathSeparators | open-vm-tools/vmblock-fuse/fsops.c:560-595 | the buffer holds the canonical form, NUL-terminated, and its length is returned |
| PathSeparators.DropRepeated | open-vm-tools/vmblock-fuse/fsops.c:570-585 | the loop with its memmove leaves the text without separators that follow a separator |
| PathSeparators.MoveDown | open-vm-tools/vmblock-fuse/fsops.c:573 | the memmove shifts the rest of the text down by one |
| PathSeparators.CanonicalIs | open-vm-tools/vmblock-fuse/fsops.c:560-595 | the canonical form is the leading separator, if any, and the names joined by single separators |
| PathSeparators.CanonicalShape | open-vm-tools/vmblock-fuse/fsops.c:560-595 | no two separators in a row and none at the end except in "/" |
| PathSeparators.CanonicalIdempotent | open-vm-tools/vmblock-fuse/fsops.c:560-595 | a second pass changes nothing |
| PathSeparators.SameCanonicalIff | open-vm-tools/vmblock-fuse/fsops.c:560-595 | two paths get the same output if and only if they agree on a leading separator and on the sequence of names |

## Left out

- The exit of the listing when attributes do not unpack (`vmhgfs-fuse/dir.c:327-330`): unpacking fails for unknown request types only, and a reply to a search read is none (`vmhgfs-fuse/fsutil.c:304-337`).
- Packet layouts, CP name conversion, escaping and the transport of HGFS: they are oracles.
- The version switches under concurrent calls: they are written without a lock, and only sequential runs are modelled.
- The retry loops of open, close, read, write, getattr, setattr, mkdir, search open, search read, statfs and symlink are one method, VersionNegotiation.Session.Perform; their own payloads are not modelled there.
- A write reply that acknowledges more than was asked for: the server of ChunkedIO does not send one, since the source does not check for it.
- Changes of a file on the server while one read or write call is running.
- ChunkedIO.Client.Write: after an error the length of the prefix already written is a ghost result, because the source does not report it.
- GuestStoreClient.CallCtx.ParseText: the tokens are cut on a copy of the header text, not in place; a status number beyond the range of int, where C leaves the result of atoi open, is read as 64-bit digits are.
- Memory of freed statistics: deep-freeing already unmarshalled entries is not modelled, nor the NUL terminator put into a version 2 resource pool path.
- Paths of 2^32 characters and more, where the 32-bit index of StripExtraPathSeparators would wrap.
- The file changing between the stat and the read of one configuration load, and saving a configuration.
- Values of the log-level, handler and path settings: LogHandlers takes the parsed settings of each domain, and cached log entries do not refer to handlers there.
- Fatal log messages, core dumps, log formatting, rotation and timestamps.
- Logging to a domain's own handlers: ToolsLog has one handler, since re-entrancy does not depend on which.
- GuestStore library initialisation and thread-local storage, connecting, and the service side beyond reading the request path.
- The individual statistics getters, which differ in the statistic they name.
- libDeployPkg, i18n, the toolbox and other command-line tools, vmblock's blocking of files, services and plugins.
