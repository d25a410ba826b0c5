# A verified model of the network server

This project models an HTTP server that is built on an io_uring event manager, and proves properties of
the model. The event manager is the environment: it completes every submitted operation at any time, with
any possible result. These pieces are modelled.

- **File cache** (`CacheSpec`, `LruCache`, `CacheRuns`). `LruCache` is the doubly linked list as written,
  with nodes relinked in place. Every method is proved to do to the list of payloads what a function of
  `CacheSpec` says. `CacheRuns` proves what is true after every sequence of cache operations.
- **Vectored transfers** (`Vectored`). The rebuilding of an iovec array in place after a partial completion,
  and whole runs of writes and scatter reads over every schedule of completions.
- **Task table and file sends** (`ServerSpec`, `NetworkServer`, `ServerInvariant`, `ServerTheorems`,
  `Interleaving`, `FileReads`, `RangeSends`, `SendRuns`, `AppWrites`, `LiveBlocks`, `ServerCache`, `StolenLock`). `NetworkServer` is the imperative class: a task
  table, a file cache, iovec arrays on the heap, the operations it has submitted, the blocks it has allocated
  and what each task has written. Only the operations of the allocator, of the event manager and of the kernel
  write the last three, from what the class hands them; its value is read off its fields. Each of its methods
  is proved to do to that value what a function of `ServerSpec` says, and one event does what `ServerSpec.Step`
  says. The other modules prove what is true over whole runs of `Step`: what is sent, to whom and in how many
  pieces, what is freed, and what the cache inside the server does.
- **Requests, ranges and form data** (`CText`, `RequestSpec`, `HttpRequest`, `RequestRoundTrip`, `Ranges`,
  `RangeRoundTrip`, `MultipartSpec`, `MultipartEncoding`, `MultipartSection`, `MultipartRoundTrip`, `MalformedForms`). The
  parsers write NULs into the buffer they parse. They are modelled in place on arrays and proved against
  functions of the bytes; printers written from the grammars are then proved to be inverted.
- **Reading requests** (`ReadSpec`, `ReadServer`, `PostReassembly`, `ReadRuns`, `Connections`, `Upload`). `ReadServer` is the
  imperative class for the completions of reads; `PostReassembly` proves what becomes of a request that arrives
  in chunks at one task, `ReadRuns` what becomes of it in runs of all reads of a connection, `Connections` which
  requests are handed over and when the connection is closed, and `Upload` joins that with the parsers.
- **Base64** (`Base64`). The encoder with its padding written in place, and the decoder of the standard.

The standards are section 3 of RFC 7230, section 2.1 of RFC 7233, section 4 of RFC 7578, section 5.1.1 of
RFC 2046 and section 4 of RFC 4648.

## Where the code does not do what one would expect

The model keeps the code as it is. Where a natural property is false, the exact condition under which it
holds is proved, or a run that breaks it is given.

- The end of a send unlocks the cache entry of its file even if the send did not take a lock
  (`src/http_send_file.cpp:84`). `StolenLock.DeliversSomethingElse` is a run of eight events, possible from the
  start, in which a cached send transmits freed memory. `ServerTheorems.BalanceIff` says exactly which events
  break the balance of locks and sends, and `ServerTheorems.BuffersLiveIff` which of them free a buffer that is
  still sent.
- The write of a file that was read in several completions starts with the progress the reads left behind.
  `FileReads.UncachedBytesIff` says that it transmits header and file on every schedule if and only if the
  file arrived in one completion.
- The body of a range is one byte shorter than its header announces (`RangeSends.FirstRangeWants`), and every
  range after the first is taken from the iovec array instead of the file (`RangeSends.LaterRangeDangles`). The
  write of a later range, too, starts with the progress the one before it left behind (`SendRuns.LaterPieceIff`).
- Two files that share a watch are not both retired by one event (`CacheRuns.EventRetires`,
  `CacheRuns.SharedWatchStaysServed`).
- The headers of a part of a form are searched in its body too. A part without a Content-Type line whose body
  holds the text of that header, and a field without a file name whose value holds `filename="`, may lose a byte
  of their content. `MultipartEncoding.Intact` says when not; recovery of the content is an equivalence with it,
  and `MultipartRoundTrip.DamagedContent` gives one of each kind. The media type of a part keeps the carriage
  return of its line.
- Range specs, and texts that are none, agree with RFC 7233 exactly under the condition of `RangeRoundTrip.AgreesWithStandard`.
- After a POST request was handed over, two reads of the connection are in flight unless its length is that
  of a usual read (`PostReassembly.ReadsAfterRequest`). A request that arrives in chunks is handed over whenever
  its bytes have arrived if and only if its first read was the only one in flight (`ReadRuns.ReassembledIff`); so
  the next upload may be lost (`ReadRuns.NextRequestMayBeLost`).
- A request line is valid whenever it begins with the letters of a method; one more character is skipped, and
  what is left of the first word counts as the path. Words behind the version are ignored.
  `RequestRoundTrip.LineValidIff` says exactly which lines are valid.
- The value of a header ends at its first colon (`RequestRoundTrip.HeaderParses`), so a host is kept without its
  port.
- A single line end is handed over as a valid request, any other single byte is refused (`ReadRuns.OneByte`).
- A POST request whose head is split between reads is not reassembled: `PostReassembly.FirstRead`.

## Model

| member | source | states |
|---|---|---|
| CacheSpec.EvictThenRetry | src/lru.cpp:62-70 | removing the last node and inserting again is the same as one insertion with eviction |
| LruCache.LruFileCache.constructor | src/lru.cpp:178-181 | a new cache is the empty list with the given capacity |
| LruCache.LruFileCache.GetItem | src/lru.cpp:75-82 | returns the first node with the name, or null if there is none |
| LruCache.ChainWithout | src/lru.cpp:153-167 | once the neighbours of a node point past it, the others form an acyclic chain with `prev` the inverse of `next` |
| LruCache.LruFileCache.Unlink | src/lru.cpp:153-167 | the pointer surgery leaves exactly the chain without the node, with head and tail correct |
| LruCache.LruFileCache.RemoveNode | src/lru.cpp:144-176 | an unlocked node leaves the list and its buffer is freed, a locked one stays, null counts as removed |
| LruCache.LruFileCache.RemoveItem | src/lru.cpp:139-142 | removal by name refines removal from the sequence |
| LruCache.LruFileCache.UnlockItem | src/lru.cpp:125-137 | the first locked node of the name loses one lock, or nothing changes |
| LruCache.LruFileCache.ProcessInotifyEvent | src/lru.cpp:15-25 | the first node with the watch becomes outdated and is removed unless locked; a zero mask changes nothing |
| LruCache.LruFileCache.InsertFront | src/lru.cpp:43-52 | the new node becomes the head of the chain |
| LruCache.LruFileCache.ReplaceBuffer | src/lru.cpp:29-38 | the old buffer is freed, the node has the new one and its length, its place is kept |
| LruCache.LruFileCache.InsertNew | src/lru.cpp:41-61 | a fresh unlocked entry stands in front of the others |
| LruCache.LruFileCache.AddOrUpdateItem | src/lru.cpp:27-73 | the recursive insertion terminates and refines update, insertion, eviction or refusal on the sequence; the list stays linked, distinct and within capacity |
| LruCache.LruFileCache.Promote | src/lru.cpp:105-120 | the node moves to the front of the chain, the order of the others is kept |
| LruCache.LruFileCache.MoveToFront | src/lru.cpp:101-122 | moving the node moves its payload to the front of the sequence |
| LruCache.LruFileCache.GetAndLockItem | src/lru.cpp:84-123 | a hit takes a lock and moves to the front, an outdated node is a miss and is removed unless locked |
| LruCache.LruFileCache.Destroy | src/lru.cpp:183-197 | the destructor frees every held buffer in list order |
| CacheRuns.StepIsChange | src/lru.cpp:15-176 | every operation changes the list in one of six ways and frees exactly the buffer it drops or replaces |
| CacheRuns.RecencyOrder | src/lru.cpp:41-73 | in every reachable state the times of last insertion or lock strictly decrease from head to tail |
| CacheRuns.EvictsLeastRecent | src/lru.cpp:62-70 | insertion into a full cache evicts the least recently inserted or locked entry, or is refused and changes nothing if that one is locked |
| CacheRuns.LockedStays | src/lru.cpp:149-151 | one operation leaves a locked node listed with its buffer, and takes a lock only by unlocking it |
| CacheRuns.Pinned | src/lru.cpp:30-38 | while fewer unlocks of a name happen than its node has locks, the node keeps its buffer, length and watch over every run |
| CacheRuns.LocksStep | src/lru.cpp:84-137 | only a successful lock and an unlock of a name change its lock count, by one |
| CacheRuns.OutdatedIsMiss | src/lru.cpp:84-94 | an outdated entry is not served: it is dropped and its buffer freed, or left as it is while it is locked |
| CacheRuns.RemoveAnswers | src/lru.cpp:139-176 | a removal is refused exactly if the entry is locked; otherwise exactly that name is gone and all other entries keep their order |
| CacheRuns.StepConserves | src/lru.cpp:27-73 | one operation adds exactly the buffer it accepts to those freed or held |
| CacheRuns.Conservation | src/lru.cpp:27-73 | over every run the accepted buffers are exactly those freed and those held; destruction frees the rest |
| CacheRuns.FreedOnce | src/lru.cpp:183-197 | if buffers are offered once, none is freed twice or while held, and a refused one is never freed |
| CacheRuns.EventRetires | src/lru.cpp:15-25 | after an event nothing with its watch can be served if and only if the nodes behind the first match are outdated already |
| CacheRuns.StaleNeverServed | src/lru.cpp:15-25 | with distinct watches, every node of a later state whose watch had an event is outdated, and so is one of that name unless inserted afterwards |
| CacheRuns.NeverServedAgain | src/lru.cpp:84-94 | after an event for a node's watch no later lock returns data with that watch, and a lock of its name returns only what was inserted afterwards |
| CacheRuns.SharedWatchStaysServed | src/lru.cpp:15-25 | two names with one watch: after the event one of them is still served |
| CacheRuns.FreedSource | src/lru.cpp:144-176 | a freed buffer was that of an unlocked node whose name is gone or has a new buffer |
| Vectored.CopyTail | src/callbacks/common.cpp:19-22 | copies the remaining original iovecs behind the first slots and leaves zeros after them |
| Vectored.VectorOpsProgress | src/callbacks/common.cpp:3-38 | the working array becomes the rest of the untouched original behind the progress, padded with zeros |
| Vectored.FullSize | src/callbacks/writev.cpp:45-48 | the sum is the number of bytes the array denotes |
| Vectored.ReadvTask.constructor | src/core.cpp:72-88 | the task starts with a copy of the iovecs and no progress |
| Vectored.ReadvTask.ReadvCallback | src/callbacks/readv.cpp:4-45 | a completion of a scatter read resubmits, ends or rebuilds the transfer as its specification says |
| Vectored.RebuiltDenotes | src/callbacks/common.cpp:9-35 | the rebuilt array denotes the original with the first bytes dropped, zero-length iovecs included |
| Vectored.OnTrackStep | src/callbacks/writev.cpp:45-80 | one completion keeps the bytes moved followed by the bytes submitted equal to the original |
| Vectored.WholeRun | src/callbacks/writev.cpp:45-80 | for every schedule, what was moved followed by what is submitted is the original, and a finished run moved it once, in order |
| Vectored.Terminates | src/callbacks/writev.cpp:50-52 | an unfinished run has had fewer positive completions than bytes, and the remaining bytes are exactly what is submitted |
| Vectored.DeliversIffFromZero | src/callbacks/writev.cpp:50-52 | a transfer delivers everything on every schedule if and only if it starts without progress or there is nothing to deliver |
| Vectored.FilledIsStore | src/callbacks/readv.cpp:27-44 | scattering chunk by chunk is storing the whole stream at the addresses moved |
| Vectored.ReadvFills | src/callbacks/readv.cpp:27-44 | a finished scatter read leaves the stream it consumed in the original buffers |
| Vectored.OverlapLosesBytes | src/callbacks/readv.cpp:27-44 | buffers hold every stream if and only if they do not overlap |
| ServerSpec.SmallestExists | src/core.cpp:45-47 | a non-empty set of freed ids has a least one, which is the one reused |
| NetworkServer.NetworkServer.GetTask | src/core.cpp:42-57 | a freed id or a new one, blank, not in flight; every other record is unchanged |
| NetworkServer.NetworkServer.GetTaskBuffOp | src/core.cpp:59-70 | the new record has the type, and the buffer unless it is null |
| NetworkServer.NetworkServer.GetTaskVectorOp | src/core.cpp:72-88 | the record keeps the application's array and a copy of it |
| NetworkServer.NetworkServer.SubmitFile | src/http_send_file.cpp:26-65 | header and body are put into two iovecs, of which original and copy are kept, and the copy is submitted to the client |
| NetworkServer.NetworkServer.SendUnsatisfiable | src/http_send_file.cpp:228-232 | a response in a new block is submitted by a task of its own |
| NetworkServer.NetworkServer.SendLocked | src/http_send_file.cpp:138-162 | a hit submits the locked buffer, or gives the lock back if a range is unsatisfiable |
| NetworkServer.NetworkServer.SendUncached | src/http_send_file.cpp:198-225 | a miss submits a read of the whole file into a new buffer |
| NetworkServer.NetworkServer.SendFile | src/http_send_file.cpp:166-226 | the cache is asked first, the file is read only on a miss |
| NetworkServer.NetworkServer.SubmitRead | src/http_send_file.cpp:12-24 | the buffer read is remembered for the cache, the response is submitted, the file is closed by a task of its own |
| NetworkServer.NetworkServer.FileRead | src/callbacks/read.cpp:48-86 | a completed file read is submitted again, fails and gives its buffer back with nothing in flight, asks for the rest, or goes on to the write |
| NetworkServer.NetworkServer.TearDown | src/http_send_file.cpp:73-81 | the block the original array names as header is freed, both arrays are dropped, nothing is in flight |
| NetworkServer.NetworkServer.FinishSend | src/http_send_file.cpp:73-97 | the lock of the name is given back and a buffer that was read is offered to the cache |
| NetworkServer.NetworkServer.DepositBuffer | src/http_send_file.cpp:87-94 | the buffer belongs to the cache if accepted and is freed if refused |
| NetworkServer.NetworkServer.SubmitNextRange | src/http_send_file.cpp:103-129 | the next range is submitted from the refilled original array |
| NetworkServer.NetworkServer.ContinueSend | src/http_send_file.cpp:99-135 | the next range if there is one, else the end of the send |
| NetworkServer.NetworkServer.WritevCallback | src/callbacks/writev.cpp:4-81 | interruption, error, partial completion and end of a vectored write change the server as specified |
| NetworkServer.NetworkServer.Handle | src/callbacks/writev.cpp:4-81 | one event does to table, cache, memory, submissions and histories what the step function says, and keeps them in order |
| ServerInvariant.StepInv | src/http_send_file.cpp:26-97 | every event that steals no lock keeps locks, memory and in-flight sends of a file in agreement |
| ServerInvariant.RunInv | src/http_send_file.cpp:26-97 | so does every run without such an event |
| ServerInvariant.CacheInv | src/lru.cpp:15-176 | a cache operation keeps every in-flight cached send on the buffer it locked |
| ServerTheorems.Untouched | src/callbacks/writev.cpp:4-81 | an event about another task leaves this task's record, operation and history alone, while tasks are appended |
| ServerTheorems.OwnCompletionsDecide | src/callbacks/writev.cpp:4-81 | in any interleaving an unranged vectored write evolves as the transfer of its own completions |
| Interleaving.OwnAlike | src/callbacks/writev.cpp:4-81 | what a completion does to its own task depends on nothing else, but for heap addresses |
| Interleaving.OwnEventsDecide | src/callbacks/writev.cpp:4-81 | non-interference over whole runs: in any interleaving, record, operation and progress of any task, whether it reads a file, writes it, its ranges or an application's iovecs, are those of the run of its own completions, which is possible |
| ServerTheorems.HitWants | src/http_send_file.cpp:137-162 | a hit without Range header submits the response header followed by the bytes cached at that time |
| ServerTheorems.CachedSendDelivers | src/http_send_file.cpp:137-164 | a cached send has at any time transmitted a prefix of header and bytes cached at lock time, and all of it, once and in order, when it is done |
| ServerTheorems.LocksEqualSends | src/http_send_file.cpp:84 | without a stolen lock the lock count of a file is the number of its in-flight cached sends |
| ServerTheorems.BaseStep | src/http_send_file.cpp:26-97 | memory, cache and operations stay in order in every run, stolen locks or not |
| ServerTheorems.LocksBounded | src/http_send_file.cpp:84 | in every run a file has at most as many locks as in-flight cached sends |
| ServerTheorems.BalanceIff | src/http_send_file.cpp:84 | an event keeps locks and cached sends in balance if and only if it does not steal a lock |
| ServerTheorems.UncachedDeliversIff | src/http_send_file.cpp:12-24 | the write of a file transfers all its addresses on every schedule if and only if its reads left no progress behind |
| FileReads.ReadingStarts | src/http_send_file.cpp:198-225 | a miss starts to read the whole file into a new buffer of its own |
| FileReads.BufferKept | src/http_send_file.cpp:221-223 | no event about anything else changes or frees the buffer or the header of a file that is sent |
| FileReads.FileFills | src/callbacks/read.cpp:73-81 | in any interleaving, the buffer of a file begins with the bytes its own reads delivered, and the rest is asked for |
| FileReads.FileArrives | src/http_send_file.cpp:12-24 | when the last bytes arrive, the response submitted is the header followed by the file, which waits for the cache |
| FileReads.UncachedBytesIff | src/http_send_file.cpp:12-24 | header and file are transmitted on every schedule if and only if the file arrived in one completion |
| FileReads.UncachedSendDelivers | src/callbacks/writev.cpp:45-80 | a file that arrived in one completion: in every run a prefix of header and file is transmitted, and all of it, once and in order, when the send is done |
| FileReads.FileIsCached | src/http_send_file.cpp:83-94 | at the end of the send the buffer with the file becomes the cache's entry for it if and only if no entry of that name is locked and there is one, or room for one, or a last entry that can go; otherwise it is freed and the cache stays as it is |
| FileReads.ReadFails | src/http_send_file.cpp:67-71 | a file that cannot be read to its end: its buffer is freed, nothing is in flight for it, nothing else has changed |
| RangeSends.StepApart | src/http_send_file.cpp:45-60 | every event keeps the iovec arrays apart from the data blocks |
| RangeSends.FirstRangeWants | src/http_send_file.cpp:47-50 | the first range is to be sent without its last byte, one byte less than the header announces |
| RangeSends.LaterRangeDangles | src/http_send_file.cpp:116-126 | in every run, what is transmitted as the body of a later range is none of the file's bytes |
| SendRuns.HitSends | src/http_send_file.cpp:137-162 | a hit submits to the client of the request the header and the bytes of the first of the ranges of its Range header, and keeps the others in order; without ranges, the whole file |
| SendRuns.WholeFileSent | src/http_request.cpp:287-290 | without a Range header, or with the value `none`, a hit sends the whole cached file and nothing else |
| SendRuns.MissReads | src/http_send_file.cpp:198-225 | a miss reads the file for the client of the request and keeps the ranges of its header |
| SendRuns.ArrivedSends | src/http_send_file.cpp:12-24 | when the last bytes arrive, the first range of the file, or all of it, is submitted to the client it was read for; a task that closes the file follows |
| SendRuns.PieceEnds | src/http_send_file.cpp:99-135 | the end of a piece submits the next range to the same client behind a new header, the old header being freed, or ends the send |
| SendRuns.LaterPieceIff | src/http_send_file.cpp:99-129 | what is submitted for a later range is transmitted on every schedule if and only if the range before it was taken in one completion, or there is nothing to transmit |
| SendRuns.SentInPieces | src/http_send_file.cpp:99-135 | in every run everything goes to one client, each range is submitted once, in order, and the send is done exactly when the last one has ended |
| SendRuns.PrintedRangeSent | src/http_request.cpp:297-347 | from a printed Range header to the bytes of the cached file: the first spec is sent, without its last byte, the others are to follow |
| SendRuns.PrintedRangeDeclined | src/http_send_file.cpp:153-158 | a first spec at or behind the last byte: nothing is read or sent of the file, the lock is given back, and one response is written to the client by a task of its own |
| AppWrites.VecsStart | src/http.cpp:69-72 | `http_writev` has the whole array in flight to the client, as a transfer from its start, and changes nothing else |
| AppWrites.VecsDelivered | src/callbacks/writev.cpp:45-80 | in every run a prefix of what the application's iovecs denote has gone to that client, and all of it, once and in order, when the write is done, while the memory is left alone |
| AppWrites.VecsTransferred | src/callbacks/writev.cpp:45-80 | in every run the completions are a schedule of the transfer of the array, and done means that all its addresses were transferred in order |
| LiveBlocks.StepLeaksNothing | src/http_send_file.cpp:67-129 | no event leaves a block behind that is neither an entry of the cache nor used by an operation in flight |
| LiveBlocks.NothingLeaks | src/http_send_file.cpp:67-129 | in every run, stolen locks or not, every block not freed is in use; when nothing is in flight the live blocks are exactly the buffers the cache lists |
| ServerCache.RunFollows | src/http_send_file.cpp:83-94 | in every run of the server its cache is what a run of cache operations makes of it |
| ServerCache.ServerKeepsOrder | src/lru.cpp:27-123 | in every reachable state of the server the cache is ordered by last insertion or lock, and the blocks it took over are exactly those freed and those listed |
| ServerCache.ChangedFileNotServed | src/callbacks/read.cpp:151-154 | behind the event for a cached file, in every run in which its watch is not handed out again, no hit has that watch and the file is served only from a buffer offered after the event |
| ServerTheorems.StolenLockFreesBuffer | src/http_send_file.cpp:84-94 | stealing the only lock frees the buffer the in-flight send still reads |
| ServerTheorems.BuffersLiveIff | src/http_send_file.cpp:84-94 | the whole-file sends of a cached file keep their buffer through an event if and only if it does not steal the only lock from one |
| StolenLock.DeliversSomethingElse | src/http_send_file.cpp:84-94 | a possible run of eight events ends with a cached send that transmitted freed memory |
| CText.Memmem | src/http_request.cpp:142-143 | the first occurrence that lies inside the given bytes |
| CText.Strstr | src/http_request.cpp:230 | the first occurrence in the C string |
| CText.Strchr | src/http_request.cpp:181-183 | the first such character before the end of the C string |
| CText.Strtok | src/http_request.cpp:241-250 | one call delimits the first token by one NUL and leaves a C string with the remaining tokens |
| CText.TokensOfJoin | src/http_request.cpp:241-250 | tokenizing inverts joining, whatever the separator made of delimiters |
| HttpRequest.HttpRequest.FindReqType | src/http_request.cpp:15-22 | the method is the one the line begins with, if any |
| HttpRequest.HttpRequest.ReqTypeDataParser | src/http_request.cpp:6-66 | the request line is parsed as specified, and the buffer is cut only inside the line |
| HttpRequest.HttpRequest.PathAndVersion | src/http_request.cpp:29-65 | path, version and directories are the tokens behind the method |
| HttpRequest.HttpRequest.SplitPath | src/http_request.cpp:58-65 | the directories are the tokens of the path |
| HttpRequest.HttpRequest.HeaderParser | src/http_request.cpp:68-126 | a header line sets its field as specified, earlier fields still point at their strings |
| HttpRequest.HttpRequest.SetField | src/http_request.cpp:90-125 | the field points behind the first space of the second token; an empty value sets nothing |
| HttpRequest.HttpRequest.HeaderLoop | src/http_request.cpp:248-250 | all lines are parsed in order, all fields point at strings that stay |
| HttpRequest.HttpRequest.ParseHead | src/http_request.cpp:239-250 | the first line is the request line, the others are headers |
| HttpRequest.HttpRequest.SetBoundary | src/http_request.cpp:252-270 | the boundary lines are made from the text behind `boundary=` |
| HttpRequest.HttpRequest.constructor | src/http_request.cpp:222-271 | the fields show what the parser function finds in the bytes and end before the body, the body is untouched, a NUL follows it |
| HttpRequest.HttpRequest.AnnouncedLength | src/http.cpp:15-16 | the number the Content-Length field announces, if it is there |
| HttpRequest.HttpRequest.TakeField | src/http_request.cpp:176-185 | the value behind a key is delimited by one NUL |
| HttpRequest.HttpRequest.ParseSection | src/http_request.cpp:163-213 | the fields and overwritten bytes of one section are as specified, bytes before it are untouched |
| HttpRequest.HttpRequest.FindSectionEnd | src/http_request.cpp:155-162 | the next boundary, else the last one, else the end |
| HttpRequest.HttpRequest.ExtractItems | src/http_request.cpp:142-217 | the loop yields the items and the buffer of the extraction function |
| HttpRequest.HttpRequest.ExtractPostDataItems | src/http_request.cpp:128-220 | extraction over the announced length yields the specified items, and the header fields stay |
| RequestSpec.MethodOfPrinted | src/http_request.cpp:16-22 | no two of the four methods are confused |
| RequestRoundTrip.HeaderParses | src/http_request.cpp:68-126 | a printed header line gives back its name and its value up to the first colon; one that begins with a colon is not set |
| RequestRoundTrip.NoSpaceIsWild | src/http_request.cpp:92-95 | a value without a space behind the colon makes a pointer that must not be followed |
| RequestRoundTrip.LineValidIff | src/http_request.cpp:6-50 | for all words: a request line is valid if and only if it is at least 14 long, begins with a method, and has a version of HTTP in the second place behind it |
| RequestRoundTrip.ValidIff | src/http_request.cpp:222-250 | a printed request is valid if and only if its first line is, whatever its headers and its body are |
| RequestRoundTrip.BoundaryOf | src/http_request.cpp:252-270 | in every request the boundary lines are made from the text behind the first `boundary=` of its Content-Type, and there are none without that header |
| RequestRoundTrip.FirstEmptyLine | src/http_request.cpp:230-234 | in a printed request the first empty line is the end of its head |
| RequestRoundTrip.RequestRoundTrip | src/http_request.cpp:222-250 | parsing a printed request recovers method, path, directories, the last value of each recognised header up to its first colon, and the exact start of the body |
| RequestRoundTrip.HeadAgrees | src/http_request.cpp:230-250 | once a buffer holds the whole head, every extension of it is parsed alike |
| Ranges.FromPartsInPlace | src/http_request.cpp:303-335 | the range of a token with a first position, cut up in place |
| Ranges.TokenRangeInPlace | src/http_request.cpp:301-346 | the range of one token, or why the loop stops |
| Ranges.RangesInPlace | src/http_request.cpp:297-347 | the loop returns the ranges of the longest prefix of accepted tokens |
| Ranges.GetRanges | src/http_request.cpp:278-350 | the ranges and the verdict of a header value, which is not changed |
| RangeRoundTrip.AtoiText | src/http_request.cpp:309 | `atoi` of spaces, a sign, digits and any other text is the number if that is an `int`, else the `int` with the low bits of the saturated number |
| RangeRoundTrip.ParseOfPrinted | src/http_request.cpp:297-347 | a printed header of specs, texts that begin with no number, and dashes has their meaning up to the first that is not accepted |
| RangeRoundTrip.RangeRoundTrip | src/http_request.cpp:278-350 | specs that start before the last byte are recovered exactly, `a-` ending at the last byte |
| RangeRoundTrip.AgreesWithStandard | src/http_request.cpp:309-342 | the code agrees with RFC 7233 on a spec if and only if it is no suffix, does not start at the last byte, and ends in order and inside; what is no spec is ignored unless it is a dash or seems to start outside the file |
| MultipartSection.TypeInBody | src/http_request.cpp:205-213 | without its header line the Content-Type key is searched in the body |
| MultipartSection.FilenameInTail | src/http_request.cpp:195-203 | without a file name its key is searched in all that follows the name, the body included |
| MultipartSection.FilenameSought | src/http_request.cpp:195-203 | the search for a file name overwrites the end of the name, or exactly the quote behind a text taken for one |
| MultipartSection.TakeType | src/http_request.cpp:205-213 | a line end of the headers is overwritten, or exactly the damaged byte of the body |
| MultipartSection.FindBlank | src/http_request.cpp:169-174 | the first empty line of a section is the end of its headers |
| MultipartSection.SectionIs | src/http_request.cpp:163-213 | one encoded section, of a file or of a field, yields its name, file name, disposition, size and content pointer; its content is intact exactly if no text of it was taken for a header; only bytes of the section change |
| MultipartRoundTrip.SectionEndIs | src/http_request.cpp:155-162 | the end found for a section is where the next boundary line begins, and none begins inside |
| MultipartRoundTrip.ExtractAll | src/http_request.cpp:142-217 | from any boundary line on, the loop yields one item per remaining part although the buffer is cut up behind it |
| MultipartRoundTrip.MultipartRoundTrip | src/http_request.cpp:128-220 | extracting an encoded form gives one item per part, in order, with exact name, file name, size and media type, and the exact content if and only if no text of it is taken for a header |
| MultipartRoundTrip.DamagedContent | src/http_request.cpp:195-213 | two parts that can be sent in a form, a file and a field, whose extracted content is not what was sent |
| MalformedForms.SectionEndsAt | src/http_request.cpp:155-162 | a section ends at the next boundary line, without one at the closing line, and without that at the end of the body |
| MalformedForms.NoEmptyLine | src/http_request.cpp:169-174 | a section without an empty line has no content |
| MalformedForms.BoundaryAtEnd | src/http_request.cpp:142-154 | a body that ends with a boundary line holds nothing behind it |
| MalformedForms.CutOffForm | src/http_request.cpp:142-217 | a form that is cut off in its last part yields one item for it, whose content reaches to two bytes before the end of the body |
| ReadServer.ReadServer.SubmitRead | src/core.cpp:59-70 | a new task reads what is missing of its buffer |
| ReadServer.ReadServer.SubmitCopy | src/http.cpp:33-43 | the bytes read so far begin a buffer of the size of the whole request |
| ReadServer.ReadServer.PostLength | src/http.cpp:14-56 | the length accounting of a POST request: grow, refuse, or go on, with a second read where the code submits one |
| ReadServer.ReadServer.HttpResponseMethod | src/http.cpp:7-67 | the bytes read are delivered, waited for or refused as specified, and the request built shows exactly them |
| ReadServer.ReadServer.ReadAgain | src/callbacks/read.cpp:139-143 | the cleared buffer is read into again by a network read |
| ReadServer.ReadServer.Handle | src/core.cpp:136-145 | a refused request closes the connection, a delivered one reads on, any other task is freed |
| ReadServer.ReadServer.ReadFailed | src/callbacks/read.cpp:14-42 | a failed read reports to the application by its kind and closes |
| ReadServer.ReadServer.ReadCallback | src/callbacks/read.cpp:4-150 | every completion of a read changes tasks, reads in flight and deliveries as specified |
| PostReassembly.Filling | src/callbacks/read.cpp:73-81 | while chunks leave a read unfinished, its buffer holds what it held at first followed by the stream |
| PostReassembly.WholeRequest | src/http.cpp:20-30 | a request whose bytes are all there is handed over; its task reads on from the network, and so does a new one with the usual buffer |
| PostReassembly.PartOfRequest | src/http.cpp:30-47 | a partial request waits in a buffer of exactly its length |
| PostReassembly.Reassembled | src/callbacks/read.cpp:73-110 | for every chunking of bytes that go to the waiting task, the request is handed over when head and announced length have arrived, not before, and is built from exactly those bytes |
| PostReassembly.FirstRead | src/http.cpp:14-65 | which first reads are handed over at once, which wait, and which close the connection |
| PostReassembly.ReadsAfterRequest | src/http.cpp:22-29 | two reads are in flight after a delivered POST request unless it has the usual read size |
| PostReassembly.RawReadFills | src/callbacks/read.cpp:112-118 | a finished contiguous read hands over its initial prefix followed by the stream |
| PostReassembly.ReadsTerminate | src/callbacks/read.cpp:77-81 | an unfinished read has had at most as many positive completions as bytes arrived |
| PostReassembly.OtherReadsApart | src/callbacks/read.cpp:122-150 | the completion of another read leaves this task, its buffer and its read alone, while tasks are appended |
| ReadRuns.OwnCompletionsDecide | src/callbacks/read.cpp:4-150 | non-interference over whole runs: in any interleaving, the record of a read task, whether it is in flight and what it hands over are what its own completions alone make of them |
| ReadRuns.RunInOrder | src/callbacks/read.cpp:122-150 | in every run, network reads in flight have an empty buffer and every read has room |
| ReadRuns.OneByte | src/http.cpp:58-66 | a single byte is refused, unless it is a line end or NUL |
| ReadRuns.LostToAnother | src/http.cpp:22-47 | with another read in flight there is a run in which all bytes of a request arrive and it is not handed over |
| ReadRuns.ReassembledIff | src/http.cpp:22-47 | a request that arrives in chunks is handed over exactly when its bytes have arrived, in every run of all reads of the connection, if and only if its first read was the only one in flight |
| ReadRuns.NextRequestMayBeLost | src/http.cpp:22-29 | after a POST request was handed over, the next one of that kind is sure to be handed over if and only if the first had the usual read size, whichever read it begins with |
| Connections.CompletionAnswers | src/callbacks/read.cpp:4-150 | every completion hands over what it should and nothing else, and closes the connection exactly if the read failed, the stream ended or the bytes were refused; that read is not in flight any more |
| Connections.ClosedIff | src/callbacks/read.cpp:4-150 | in every run of all reads, a connection is closed if and only if some completion was the end of the stream, a failure or bytes that were refused; what was handed over is, in order, what the completions hand over |
| Connections.OtherMethods | src/http.cpp:58-66 | a request that is not a POST is handed over as exactly its bytes, and the same read goes on with an empty buffer, if and only if its request line is valid; otherwise the connection is closed and nothing else changes |
| Connections.PrintedAnswered | src/http_request.cpp:6-50 | a printed request that is not a POST is handed over if and only if its request line is understood, and otherwise closes the connection |
| Connections.PlainRequestAnswered | src/http.cpp:58-63 | every printed GET, PUT and DELETE request is handed over and the connection stays open |
| Connections.PrintedPostWithoutLength | src/http.cpp:51-54 | a printed POST request without a Content-Length header is refused and closes the connection |
| Upload.HeadEndOfPrefix | src/http_request.cpp:230-234 | a prefix that reaches behind the empty line has the same head |
| Upload.FormParses | src/http_request.cpp:252-270 | the parser finds the boundary, the length and the body of a printed form |
| Upload.UploadArrives | src/callbacks/read.cpp:73-110 | a form sent in any chunks is handed over exactly when it is complete, in every run, if and only if its first read was the only one in flight |
| Upload.UploadToOneTask | src/callbacks/read.cpp:73-110 | whatever other reads are in flight, a form whose further bytes all go to the waiting task is handed over |
| Upload.ExtractForm | src/http_request.cpp:128-220 | the application extracts from the request it was handed one item per part, each of which gives back its part from the request's own buffer |
| Upload.ReceiveForm | src/http_request.cpp:222-271 | so it does from a request that is built from the bytes of a printed form |
| Base64.Overwrite | src/utility.cpp:39-43 | only the last characters become padding |
| Base64.B64Encode | src/utility.cpp:26-46 | the two loops compute the encoding, whose length is four thirds rounded up to a quartet |
| Base64.QuartetLetters | src/utility.cpp:10-24 | the four characters of a quartet are no padding and hold the three bytes |
| Base64.RoundTrip | src/utility.cpp:26-46 | the standard decoder recovers the bytes, and `=` stands exactly in the last (3 - n mod 3) mod 3 places |
| Base64.Injective | src/utility.cpp:26-46 | different inputs have different encodings |

## Left out

- CachedSendDelivers: is stated for runs in which no uncached send of the file ends while it is locked; `StolenLock` shows that this is needed.
- MultipartRoundTrip: media types are recovered only for parts whose names do not hold the text of the Content-Type key, and for fields whose own Content-Type line does not hold `filename="`; they keep the carriage return the code leaves.
- ExtractPostDataItems: does not cover bodies with a section shorter than three bytes, for which the code computes a search length below zero, nor a second call, which would add the items again.
- GetRanges: requires a value that is empty, `none` or at least six characters long; for a shorter one the code asks for an array of a negative size, which throws and ends the server, or, at five characters, tokenizes an empty buffer without a NUL.
- HttpResponseMethod: requires of a POST request that the pointer to its Content-Length can be followed, and of one whose body is incomplete that the length of all of it is a `size_t`; otherwise the code follows an invalid pointer or copies past a buffer.
- HttpRequest.HttpRequest.constructor: the boundary lines of a request without a body may be missing, because the code compares a pointer with the end of the buffer; the byte behind the copied bytes, which the code does not write, is taken to be NUL.
- SubmitNextRange: the bytes of iovec arrays are not modelled, so what the code reads from them instead of the file is only known to be none of the file's bytes.
- A header value without a space behind the colon: the code makes a pointer that must not be followed; the model marks such a field and does not follow it.
- The event manager, sockets, `open` and `fstat`, accept and close: operations submitted and completed by the environment; `inotify_add_watch` returns a number given with the event.
- Application callbacks are recorded as deliveries; the text of responses (`src/http_response.cpp`) is an opaque string given with the event.
- A file that cannot be opened, and the not-found page: a send of such a file changes nothing but the cache lookup.
- `write_callback`, `raw_writev`, events and websocket functions, SHA-1, logging and statistics.
- Addresses of heap blocks are numbers that are never reused, so that reading a freed block is visible as such.
- Bytes are modelled as `char`; `atoi` is that of glibc, which saturates to `long` and keeps the low 32 bits.
- `free_task`, whose body is commented out in the source: freed ids occur only where `get_task` would reuse them.
- The send half and the read half of `network_server` are two classes with a task table each.
