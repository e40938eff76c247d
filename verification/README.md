# Verification of the Apache.Web bridge

A Dafny model of the managed half of mod_aspdotnet (`Apache.Web/`): the code that hands an Apache request to
ASP.NET and its answer back. `dafny verify dfyconfig.toml` checks the whole project.

| file | models |
|---|---|
| `Brigades.dfy`, `ReadOutcomes.dfy`, `EntityBody.dfy` | bucket brigades and the input filter; what a read asks of the filter and makes of its answers; the nested loops that do it |
| `Preread.dfy` | what `Handler`'s preread makes of its brigade, failed bucket reads included |
| `WorkerRequests.dfy` | the request object: preread, `ReadEntityBody`, the senders, `Handler` |
| `WholeBodies.dfy` | a client reading a whole body, call by call |
| `FileResponse.dfy` | splitting a file range into buckets |
| `Completion.dfy` | `Handler` and the sending threads as interleaved steps |
| `HostProtocol.dfy`, `HostSafety.dfy`, `HostOutcomes.dfy`, `SoloRuns.dfy` | the host-restart protocol as interleaved steps, what every run keeps, what comes of its threads, runs of one thread |
| `HostFactory.dfy` | the factory object with its four lists; its request method performs a run of the protocol |
| `Paths.dfy` | `Configure`, `MapPath`, `GetFilePath` |
| `HeaderTables.dfy`, `Headers.dfy` | the known-header tables, the partition of request headers |
| `ServerVariables.dfy` | the ALL_RAW block and a reader for it |
| `Text.dfy`, `HttpStatus.dfy` | case folding, character replacement, table lookup; the two fixed results |

## How the environment is modelled

- **Input filter.** A filter is any function from (number of the call, bytes handed out, bytes requested) to a
  response; every theorem about reading is for all such functions. `Chunks` says it cuts a given body into
  brigades no larger than requested, with EOS last; `Live` says it does not return empty brigades for ever. There is
  such a filter for every body and every way of cutting it (`EveryBodyIsChunked`). A data bucket may morph when read,
  leaving a remainder bucket, or fail to be read.
- **Failed bucket reads.** `InternalReadEntityBody` returns the error. `Handler`'s preread only logs it and goes on
  with the data and length variables as they are; the model gives them arbitrary contents (`junk`). Its writes stay
  inside the array whatever they are. `Preread.dfy` says, over all such contents, exactly when the result is a prefix
  of the payload and when it is the whole body.
- **Host factory.** Every read and write of a slot is its own step. Creating a host, configuring it and calling it
  take an answer from the environment; hosts are unloaded and finalisers start at any time. Setup (`CreateHost`) is
  over before requests arrive.
- **Response side.** Passing a brigade and setting `body_sent` are two steps, as are the exception path's test and
  its write of the status.
- **Text.** Comparison and case folding are ordinal over ASCII letters; header names are case-insensitive
  (section 3.2 of RFC 7230).

## What the code does differently from what it says

- After an unloaded host the request clears the slot and then sets `obj` to the handle it already had, so it calls
  the dead host again (`DeadHostGetsCalledTwice`); the reconnect is left to the next request (`RecoverWithinTwoRequests`).
- `Handler` goes on after a bucket of its preread could not be read. A bucket of known length then leaves room that
  something else fills (`PrereadNotPrefix`); the preread is a prefix of the payload whatever fills it exactly when the
  measured length ends at that bucket (`PrereadIsPrefixExactly`), as it does for a bucket of unknown length
  (`UnsizedFailureLeavesNoRoom`).
- `IsEntireEntityBodyIsPreloaded` answers from `seen_eos` alone, so it can be true while preread_body lacks the body
  (`PreloadedButMissing`); `EntireBodyPrereadExactly` gives the exact condition.
- A host can be called before it is configured (`UnconfiguredHostGetsCalled`; `CallsUnconfiguredExactly` says when),
  and a live host can be displaced by a thread that read the slot empty earlier (`LiveHostGetsReplaced`, and exactly
  when: `ConnectDisplacesExactly`).
  `SlotLosesHost` lists every way a host leaves its slot.
- "While `body_sent` is 0 nothing has been passed on" fails while a sender is between its two steps
  (`StatusReturnedAfterBrigade`, `ExceptionPathOverwritesStartedStatus`); `StatusReturnWithBrigade` and
  `ExceptionPathStatus` give the exact conditions.
- `MapPath` is described as answering null outside the virtual path. It maps sibling paths that share its leading
  characters (`MapPathTakesSibling`). The file path round trip needs the reported path to come out rooted
  (`FilePathRoundTrip`); for a mount a request can reach, whose virtual path is empty or starts with a slash, it
  fails exactly when the virtual path is empty and what follows the physical path is nonempty and does not start with
  a backslash: a file beside the directory (`FilePathRoundTripFails`), or any file below a physical path that kept a
  trailing backslash (`FilePathRoundTripFailsBelow`; `ConfiguredTrailing` says when it is kept).
- A file range whose length does not fit `apr_size_t` is cut short when the request's own file is small
  (`SingleBucketAgreesWithSplit`, `SingleBucketCutShort`).
- The end-of-send notification is accepted and never delivered (`NotificationNeverDelivered`).

## Model

| member | source | states |
|---|---|---|
| EntityBody.InternalReadEntityBody | Apache.Web/WorkerRequest.cpp:351-414 | Any filter, any outcome: what is asked, when the call asks again and what it ends with are as `Outcome` says; the buffer gets the first min(size, payload) bytes of the payload read, the rest is counted as overflow, nothing else is written; it fails only if the filter or a bucket read does. Any filter that never hands out more than requested: overflow is 0. Over a filter that chunks a body: EOS only at the end of the body, and a successful call delivers exactly min(size, bytes left), also when EOS was seen before. Terminates for every live filter |
| ReadOutcomes.OutcomeIsUnique | Apache.Web/WorkerRequest.cpp:367-413 | `Outcome` leaves nothing open: filter, position, size and seen_eos decide the answers taken, the bytes read, the status and the new seen_eos; the last answer decides the status, and the call asks again exactly while it has seen no EOS, every bucket could be read and bytes are wanted |
| ReadOutcomes.CallDone | Apache.Web/WorkerRequest.cpp:367-413 | From `Outcome` alone: a filter that never fails and whose buckets can be read gives success; a bounded filter no overflow; a chunking filter the next min(size, bytes left) bytes, with EOS only at the end |
| EntityBody.ReadRound | Apache.Web/WorkerRequest.cpp:367-409 | One turn of the outer loop takes the filter's answer to a request for min(8192, remaining size) bytes, fails as the filter exactly if that is an error and as a bucket exactly if one of it cannot be read, and copies what can be read of it |
| EntityBody.ConsumeBrigade | Apache.Web/WorkerRequest.cpp:378-408 | The inner loop reads exactly the payload up to EOS or to the first unreadable bucket, fails exactly if there is one, and terminates although reads insert buckets |
| EntityBody.CopyBucket | Apache.Web/WorkerRequest.cpp:395-404 | A clipped copy extends what was copied so far by as much as fits and counts the rest |
| EntityBody.CopiedMore | Apache.Web/WorkerRequest.cpp:395-404 | Two successive clipped copies are one clipped copy of the concatenation |
| EntityBody.CopiedMeans | Apache.Web/WorkerRequest.cpp:395-404 | What the clipped copy means byte by byte: the first min(size, payload) bytes are the payload's, the others as before, the rest is counted |
| Brigades.ReadStep | apache2_4_include/apr_buckets.h:77-81 | Reading a bucket consumes one piece of the payload, keeps EOS and readability, and shrinks the number of reads left, although a remainder bucket may be inserted |
| Brigades.InputFilter.GetBrigade | Apache.Web/WorkerRequest.cpp:371-376 | The answer is the filter's for this round, position and request, and what it hands out is recorded |
| Brigades.ServesNext | Apache.Web/WorkerRequest.cpp:371-376 | A chunking filter that handed out a prefix of the body hands out a longer prefix, within the request, and nothing more at the end |
| Brigades.EveryBodyIsChunked | Apache.Web/WorkerRequest.cpp:371-376 | Every body, cut in any way, has a filter of the kind the reading theorems are about |
| Brigades.MeasuredStepwise | apache2_4_include/apr_buckets.h:732-742 | The measured length adds up the data of all buckets, reads as it goes, and stops at an unreadable bucket of unknown length |
| Brigades.ReadableIsUnchecked | apache2_4_include/apr_buckets.h:732-742 | With readable buckets the unchecked copy is the payload and fits the measured brigade length; with EOS last it fills it |
| WorkerRequests.PrereadCopy | Apache.Web/WorkerRequest.cpp:483-527 | The preread loop, failed reads included: the array ends up as the clipped unchecked stream followed by zeros, bytes_read counts the clipped stream, and the loop reports EOS exactly when the brigade has one |
| WorkerRequests.WorkerRequest.Preread | Apache.Web/WorkerRequest.cpp:475-539 | Returns 500 from Handler exactly when the filter fails; otherwise preread_body, bytes_read and seen_eos are those of one brigade of at most 49152 bytes, failed reads included. For a chunked body they are in step with the filter whenever the preread is complete, and what was copied is a prefix of the body whenever the measured length leaves no room for junk |
| Preread.PrereadIsPrefixExactly | Apache.Web/WorkerRequest.cpp:483-527 | For every brigade: the preread is a prefix of the payload whatever the failed reads leave behind if and only if every bucket is readable or the measured length ends at the first that is not |
| Preread.EntireBodyPrereadExactly | Apache.Web/WorkerRequest.cpp:483-527 | For every brigade that serves a body to EOS: preread_body is the whole body whatever the failed reads leave behind if and only if every bucket is readable or the measured length and the payload both end at the first that is not |
| Preread.UnsizedFailureLeavesNoRoom | apache2_4_include/apr_buckets.h:732-742 | If the first unreadable bucket has no known length, measuring stops there and the preread is exactly the payload before it |
| Preread.PrereadNotPrefix | Apache.Web/WorkerRequest.cpp:506-522 | A sized bucket that cannot be read, whose place is taken by something else |
| Preread.PreloadedButMissing | Apache.Web/WorkerRequest.h:501-510 | A brigade that serves its body to EOS and leaves preread_body empty |
| WorkerRequests.WorkerRequest.ReadEntityBody | Apache.Web/WorkerRequest.cpp:418-452 | An empty buffer is left alone; any other call has the `Outcome` its filter decides and returns the first min(size, payload) bytes. In step with a chunking filter the bytes are the next ones of the body, bytes_read and seen_eos stay in step unless a bucket read fails, and a successful call takes min(size, bytes left) |
| WorkerRequests.WorkerRequest.IsEntireEntityBodyIsPreloaded | Apache.Web/WorkerRequest.h:501-510 | Between the preread and the first read, positive exactly when the preread saw EOS; a positive answer then means the whole body if the preread was complete, and a prefix of it if a failed read found no room |
| WholeBodies.ReadWholeBody | Apache.Web/WorkerRequest.cpp:351-527 | Whole-request reassembly for every body, every chunking and every sequence of calls up to and including the first bucket read that loses something, filter errors included: preread plus pieces is a prefix of the body unless a failed preread read found room, and bytes_read its length; with a complete preread it is the whole body once EOS was seen, and without failed calls the pieces are those of the reference `Take`. Over a filter that never fails and is always readable every call succeeds and the client has the first min(asked, length) bytes |
| WholeBodies.ReadCalls | Apache.Web/WorkerRequest.cpp:418-452 | The same for any sequence of calls on a request already in step with its filter, wherever in the body it stands |
| WholeBodies.TakeIsPrefix | Apache.Web/WorkerRequest.cpp:418-452 | The reference loses nothing: its pieces join to the first min(asked, length) bytes of the body |
| WorkerRequests.WorkerRequest.SendResponseFromMemory | Apache.Web/WorkerRequest.cpp:214-259 | An empty send does nothing; any other passes the bytes with a flush and then sets body_sent: two steps of the completion protocol |
| WorkerRequests.WorkerRequest.SendResponseFromFile | Apache.Web/WorkerRequest.cpp:316-347 | A refused handle passes nothing but still sets body_sent; otherwise one brigade is passed, file buckets and then a flush, which stands for exactly the bytes asked for if and only if the range is split or its length fits `apr_size_t` |
| WorkerRequests.WorkerRequest.FlushResponse | Apache.Web/WorkerRequest.cpp:189-211 | Only a final flush passes EOS and sets body_sent |
| WorkerRequests.WorkerRequest.EndOfRequest | Apache.Web/WorkerRequest.h:150-169 | One EndOfRequest step of the completion protocol |
| WorkerRequests.WorkerRequest.SendStatus | Apache.Web/WorkerRequest.h:532-555 | One SendStatus step: the status changes, nothing is sent |
| WorkerRequests.WorkerRequest.Handler | Apache.Web/WorkerRequest.cpp:455-570 | For any calls the runtime makes in turn, throwing or not: 500 and nothing sent if the first brigade fails; otherwise a result exactly if the request is ended, OK if anything counted as sent, else 500 after an exception, else the last status set. The brigades stand for exactly the bytes asked for, in order, when the file sends fit. What happens is a run of the completion protocol with that result |
| WorkerRequests.WorkerRequest.Perform | Apache.Web/WorkerRequest.cpp:189-347 | Each call passes the brigade it should, if any, and is a sequence of steps of the completion protocol |
| FileResponse.FileBuckets | Apache.Web/WorkerRequest.cpp:288-309 | Split: the buckets tile the range in order, ceil(length/MAX) of them, all but the last of size MAX, the last in 1..MAX; unsplit: one bucket with the length cast to apr_size_t |
| FileResponse.TilesDenoteRange | Apache.Web/WorkerRequest.cpp:294-303 | Any tiling of a range stands for exactly the bytes of the range |
| FileResponse.SplitAt | Apache.Web/WorkerRequest.cpp:294-303 | The split bucket by bucket: bucket i starts at offset + i * 16777216 and has that length, but the last, which has the rest, between 1 and that |
| FileResponse.SingleBucketAgreesWithSplit | Apache.Web/WorkerRequest.cpp:289-309 | The unsplit bucket stands for the requested range, and for the same bytes as the split branch, if and only if the length fits apr_size_t |
| FileResponse.SingleBucketCutShort | Apache.Web/WorkerRequest.cpp:307-308 | The shortest length that does not fit yields a bucket of length 0: nothing of a nonempty range is sent |
| Completion.NextKeepsInv | Apache.Web/WorkerRequest.cpp:541-569 | Every step keeps: no callback stored, and while body_sent is unset every brigade passed belongs to a sender still in its call |
| Completion.HandlerReturnsAfterEndOfRequest | Apache.Web/WorkerRequest.cpp:556-569 | In every run, past the preread, Handler returns only after EndOfRequest |
| Completion.CompletedMeansEnded | Apache.Web/WorkerRequest.h:150-169 | The event is set exactly when EndOfRequest has happened |
| Completion.BodySentNeverReverts | Apache.Web/WorkerRequest.cpp:189-211 | In every run body_sent stays set |
| Completion.NotificationNeverDelivered | Apache.Web/WorkerRequest.h:139-169 | In no run is the registered notification invoked |
| Completion.StatusReturnWithBrigade | Apache.Web/WorkerRequest.cpp:564-569 | In every run Handler returns a status although a brigade was passed exactly when a brigade was passed and no sender has set body_sent by then; it returns OK exactly when one has |
| Completion.ReturnedStatus | Apache.Web/WorkerRequest.cpp:564-569 | In every run the status Handler returns is the one SendStatus or the exception path wrote last before the return, or else the request's own |
| Completion.ReturnedCode | Apache.Web/WorkerRequest.cpp:535-569 | In every run, whenever Handler has returned: 500 if the preread failed, else OK if a sender had set body_sent by the return, else the status written last before it or the request's own |
| Completion.ExceptionIsReported | Apache.Web/WorkerRequest.cpp:541-554 | In every run that returns after an exception with no body_sent set, 500 was written to the status; it is written there only after an exception |
| Completion.HandlerStepsAreBounded | Apache.Web/WorkerRequest.cpp:455-570 | In every run Handler takes at most six steps |
| Completion.HandlerNotStuck | Apache.Web/WorkerRequest.cpp:556-569 | Until it has returned Handler can step, or it waits for EndOfRequest, which can come and lets it go on |
| Completion.StatusIsLastWritten | Apache.Web/WorkerRequest.h:532-555 | In every run the status at any moment is the last one written, or the initial one |
| Completion.OrderlyStatusReturnSentNothing | Apache.Web/WorkerRequest.cpp:564-569 | If the request is ended only after its sends returned and nothing is sent later, a returned status means nothing was sent |
| Completion.StatusReturnedAfterBrigade | Apache.Web/WorkerRequest.cpp:250-251 | A run in which a status is returned although a brigade was passed |
| Completion.ExceptionPathStatus | Apache.Web/WorkerRequest.cpp:544-548 | In every run the exception path rewrites the status of a started response exactly when a sender was between its two steps at the test, or passed a brigade between test and write |
| Completion.SendingInRun | Apache.Web/WorkerRequest.cpp:214-259 | In every run body_sent is set exactly when some sender has reached that step, and something was passed exactly when a brigade event happened |
| Completion.ExceptionPathOverwritesStartedStatus | Apache.Web/WorkerRequest.cpp:544-548 | A run in which that happens |
| HostProtocol.NextKeepsInv | Apache.Web/HostFactory.h:116-305 | Every step of every interleaving keeps the slot, lock and thread invariant |
| HostSafety.SlotHoldsMountedHost | Apache.Web/HostFactory.h:116-194 | In every state of every run a filled slot k holds a host created for k from the URI and directory mounted at k, configured with that key and paths except while the lock holder is between its store and Configure, or about to take the host out |
| HostSafety.MountsNeverChange | Apache.Web/HostFactory.h:170-194 | In every run URI, directory and server of every key stay as mounted |
| HostSafety.SlotUnconfiguredExactly | Apache.Web/HostFactory.h:125-149 | In every state of every run a filled slot holds an unconfigured host exactly while the lock holder is between storing it and Configure, or about to take it out |
| HostSafety.CallsUnconfiguredExactly | Apache.Web/HostFactory.h:200-298 | In every run a request about to make its first or its second call calls an unconfigured host exactly when it has not connected, read the host inside that window, and no step since configured it |
| HostSafety.ConnectedCallsConfigured | Apache.Web/HostFactory.h:254-298 | In every run a request that has connected goes on to call a configured host |
| HostSafety.CallsOwnHost | Apache.Web/HostFactory.h:196-305 | In every run the host a request is about to call was created for the request's own key, from the URI and directory mounted there, and any configuration it has is of that key and those paths |
| HostSafety.WritesUnderLock | Apache.Web/HostFactory.h:116-277 | Every write to a slot, also one that leaves the value, is by the thread that holds the monitor; no other event changes a slot |
| HostSafety.LockDiscipline | Apache.Web/HostFactory.h:154-292 | A thread holds the monitor exactly while in its critical section, once; every finished thread has given it back |
| HostSafety.RequestBounds | Apache.Web/HostFactory.h:196-305 | In every run the query-failure exit is never reached, the slot read back after ConnectHost is its new host, and a request makes at most two dispatches and at most one connect |
| HostSafety.NobodyStuck | Apache.Web/HostFactory.h:154-305 | In every state of the invariant a thread that is not done can step, or waits for the monitor while its holder can |
| HostSafety.StepsAreBounded | Apache.Web/HostFactory.h:154-305 | In every run a request takes at most 11 steps of its own and a finaliser at most 4 |
| HostSafety.SlotLosesHost | Apache.Web/HostFactory.h:116-285 | A host leaves its slot only through its own finaliser, a request whose call to it failed as unloaded, its own failed configuration, or a thread that had read the slot empty before it was stored |
| HostSafety.ConnectDisplacesExactly | Apache.Web/HostFactory.h:116-255 | In every run a request about to store its new host, or to clear the slot because creating one threw, displaces exactly the host, if any, that it found in the slot after taking the lock, although it had read the slot empty |
| HostSafety.StaleFinalizerHarmless | Apache.Web/HostFactory.h:154-167 | A finaliser step changes no slot that does not hold its own host |
| HostOutcomes.FinalizedHostStaysOut | Apache.Web/HostFactory.h:154-167 | In every interleaving, once a host's finaliser has been through its test and store, the host is in no slot for the rest of the run |
| HostSafety.HostNeverReturns | Apache.Web/HostFactory.h:116-167 | In every run a host that has left its slot never comes back to it |
| HostSafety.UnloadedHostStaysOut | Apache.Web/HostFactory.h:200-253 | In every interleaving, once a request found its host unloaded and went through the lock, the host is out of the slot for the rest of the run |
| HostOutcomes.UnloadedHostNeverReplies | Apache.Web/HostFactory.h:204-223 | In every run no call is answered by a host unloaded before |
| HostOutcomes.RequestStatus | Apache.Web/HostFactory.h:196-305 | In every run a finished request hands back the reply a host gave it, as soon as one did, and 500 without one |
| SoloRuns.UnconfiguredHostGetsCalled | Apache.Web/HostFactory.h:125-132 | From every start with an empty slot there is a run in which a request is about to call an unconfigured host |
| SoloRuns.LiveHostGetsReplaced | Apache.Web/HostFactory.h:254-265 | From every start with an empty slot there is a run in which a live configured host is replaced |
| SoloRuns.DeadHostGetsCalledTwice | Apache.Web/HostFactory.h:237-302 | From every start with a filled slot there is a run in which a request calls the unloaded host, empties the slot and calls the same host again |
| SoloRuns.EmbedStep | Apache.Web/HostFactory.h:196-305 | A step computed on one thread's view is a step of the protocol |
| HostFactories.HostFactory.ConnectHost | Apache.Web/HostFactory.h:116-152 | Succeeds exactly when creation and configuration do; then the slot holds the new configured host, otherwise it is empty |
| HostFactories.HostFactory.HostFinalized | Apache.Web/HostFactory.h:154-167 | Empties the slot exactly if it holds the finalised host, and keeps the invariant |
| HostFactories.HostFactory.FinalizeHost | Apache.Web/WorkerRequest.cpp:24-32 | A configured host's finaliser, run alone, is a run of the protocol; afterwards the host is in no slot and every other slot is as before |
| HostFactories.FinalizerRun | Apache.Web/HostFactory.h:154-167 | That run exists from every state of the invariant with the monitor free, and keeps it |
| HostFactories.HostFactory.CreateHost | Apache.Web/HostFactory.h:170-194 | The n-th call takes place n in all four lists, also when the mount fails and -1 is returned, and leaves a start state of the protocol |
| HostFactories.HostFactory.HandleHostRequest | Apache.Web/HostFactory.h:196-305 | Alone, a request performs a run of the protocol; its status, calls and lists are what `Handled` gives for every combination of answers |
| HostFactories.HostFactory.ServeRequest | Apache.Web/HostFactory.h:196-305 | The request's code on the lists: for every combination of answers the status, the number of calls and connects and the new lists are those of `Handled`, and the monitor is given back |
| HostFactories.RequestRun | Apache.Web/HostFactory.h:196-305 | That run exists from every state of the invariant, keeps it and gives the monitor back |
| HostFactories.RecoverWithinTwoRequests | Apache.Web/HostFactory.h:196-305 | A dead host is cleared by the first request that hits it, as the lists between the two requests show, and which fails after two calls; it is replaced by exactly one connect in the next request |
| Paths.Host.Configure | Apache.Web/Host.h:75-97 | Stores the configured paths with their slash directions fixed |
| Paths.ConfiguredTrailing | Apache.Web/Host.h:87-96 | At most one trailing separator is dropped; one remains exactly when the input ended in two |
| Paths.FilePathRoundTrip | Apache.Web/WorkerRequest.cpp:157-172 | For every file, MapPath of GetFilePath is the file if and only if it is below the mount and the reported path comes out rooted or empty; below the mount it has an extra separator otherwise, and a file outside is reported as it is |
| Paths.FilePathRoundTripFails | Apache.Web/Host.h:181-185 | The mount of the whole site and a file of a sibling directory for which it is not the file |
| Paths.FilePathRoundTripFailsBelow | Apache.Web/Host.h:87-96 | A mount whose physical path kept a trailing backslash, and a file below it for which it is not the file |
| Paths.MapPathCanonicalises | Apache.Web/Host.h:142-187 | For every rooted path under the virtual path, mapping and converting back gives the path with forward slashes and the configured casing, and a second pass changes nothing |
| Paths.NoPathIsTheMount | Apache.Web/Host.h:151-156 | No path and an empty one map to the mount's directory, which is reported as the virtual path; the virtual path maps there too exactly when it is rooted or empty |
| Paths.MappedStaysInMount | Apache.Web/Host.h:142-187 | Every mapped path starts with the physical path and has no forward slash |
| Paths.MapPathRefusesNoFile | Apache.Web/Host.h:143-168 | A rooted path gets null exactly when it is, ignoring case, the reported path of no file below the mount |
| Paths.MapPathAnswersNullOutside | Apache.Web/Host.h:143-147 | The described null answer is given exactly unless the path merely shares the virtual path's leading characters |
| Paths.MapPathTakesSibling | Apache.Web/Host.h:160-175 | A path for which it is not given |
| Paths.RelativePathKeptWhole | Apache.Web/Host.h:181-185 | A relative path is taken whole below the physical path exactly when the virtual path is empty |
| Paths.RelativeAgreesWithRooted | Apache.Web/Host.h:159-185 | Under a nonempty virtual path a relative path maps like the same path with a leading slash exactly when it names the virtual path and goes on with a separator |
| HeaderTables.RequestIndexDecidesName | Apache.Web/WorkerRequest.h:439-451 | For every string, its request index is i exactly when it equals name i ignoring case; the name of an index has that index, on all 40 slots; the name found for a string is that string ignoring case |
| HeaderTables.ResponseIndexDecidesName | Apache.Web/WorkerRequest.h:453-465 | The same for the 30 response slots |
| HeaderTables.RequestNamesLowerToIndex | Apache.Web/http_header_arrays.h:24-138 | The request index table is the lowercased name table |
| HeaderTables.ResponseNamesLowerToIndex | Apache.Web/http_header_arrays.h:24-115 | The response index table is the lowercased name table |
| HeaderTables.RequestIndexDistinct | Apache.Web/http_header_arrays.h:82-138 | No request index name occurs twice |
| HeaderTables.ResponseIndexDistinct | Apache.Web/http_header_arrays.h:82-115 | No response index name occurs twice |
| Text.LowerDecidesCase | Apache.Web/WorkerRequest.cpp:82 | Two strings lower to the same one exactly when they differ at most in the case of ASCII letters |
| Text.LowerForm | Apache.Web/WorkerRequest.cpp:82 | The lower-case form differs from the string at most in the case of letters and has no upper-case letter |
| Headers.PartitionHeaders | Apache.Web/WorkerRequest.cpp:75-92 | Known slot i holds the value of the last header of that name; the three unknown lists are the unknown headers in list order |
| Headers.UnknownHeaderArray | Apache.Web/WorkerRequest.cpp:94-102 | The array pairs each unknown header's original name with its value |
| Headers.LookUp | Apache.Web/WorkerRequest.h:388-428 | From the constructor's own loops, for every list and name: a name known ignoring case reads the last match of the plain list and is invisible to the unknown lookup, any other reads the first match ignoring case |
| Headers.UnknownLookupIsFirstMatch | Apache.Web/WorkerRequest.h:409-428 | The unknown lookup finds the first match of the plain list, and nothing for a known name |
| Headers.LastValueMeaning | Apache.Web/WorkerRequest.cpp:84-86 | The last-match reference is the value at a position with no later match, or none |
| Headers.FirstValueMeaning | Apache.Web/WorkerRequest.h:409-428 | The first-match reference is the value at a position with no earlier match, or none |
| Headers.SidesPartition | Apache.Web/WorkerRequest.cpp:84-91 | Every header is on exactly one side |
| Headers.UnknownSideKeepsOrder | Apache.Web/WorkerRequest.cpp:87-91 | The unknown side is the list read at increasing positions, exactly those with unknown names |
| ServerVariables.AllRaw | Apache.Web/WorkerRequest.h:308-327 | The two loops print the block, and its length is the precomputed capacity |
| ServerVariables.BlockRoundTrip | Apache.Web/WorkerRequest.h:308-327 | Reading the block back gives the environment if and only if no name contains '=' or NUL and no value NUL |
| ServerVariables.ReadsOnlyBlocks | Apache.Web/WorkerRequest.h:308-327 | A text reads as an environment if and only if it is its block and every variable is printable |

## Left out

- `int` and `__int64` counters are unbounded; only the cast to `apr_size_t` in the file splitter is modelled.
- `ReadEntityBody` with a size larger than its buffer: the code copies past the buffer's end; the model takes `size <= buffer.Length`.
- `SendResponseFromFile` with a negative length; length 0 returns early, so the file-size branch is not reached.
- SendStatus: the status line it also sets is not modelled; the response header setters and the thin getters over `request_rec` are left out too.
- `GetServerVariable` for names other than ALL_RAW: a plain first-match lookup.
- The path, key and liveness of a host as an object: the protocol has them as values, `Paths.Host` as an object.
- `Destroy`, leases, logging and debug blocks; logging is taken not to throw.
- Exceptions at arbitrary points of the lock region: they are modelled where the code calls out, at `Monitor::Enter` and at the first read under the lock.
- The dispatch itself (`Host::HandleRequest` in the other application domain) is one step with any outcome a live or dead host can have.
- Culture-dependent string comparison in `StartsWith` and `EndsWith`.
- Handler: as a method of the object it takes the runtime's calls one after the other, inside ProcessRequest; calls from other threads, and after ProcessRequest has returned, are in the completion protocol.
- ReadWholeBody: says nothing of calls after a bucket read that lost something, in the preread or in a call, since the code drops the rest of that brigade.
