# A verified model of concurrent-http-proxy-server

The proxy accepts connections in one thread, hands them to a bounded pool of workers, and answers absolute-form
`GET` requests either from a shared LRU cache or by relaying the origin's response and keeping a copy.
This project models that behaviour in Dafny and proves what the design relies on, for all inputs, all
interleavings and all outcomes of the network and of memory allocation.

## How the project is laid out

- `CacheModel` is the cache on values, in the 64-bit arithmetic of the C code. `CacheRuns` proves what whole runs
  of it do: LRU order, contents, the byte budget, inclusion.
- `Lru`, `BucketTable` and `Cache` are the linked structures, updated in place. Every method is proved to compute
  the function of `CacheModel` it stands for, and to keep the structural invariant.
- `JobRing` is the ring buffer of the pool, as a class and as the FIFO queue it refines. `ThreadPool` is the
  locking protocol as a transition system over any number of threads.
- `Text`, `RequestParser`, `HttpRequest`, `CacheKey`, `OriginRequest`, `OriginBuffer` and `Intake` cover the path of
  a request from the socket to the bytes sent to the origin.
- `Forwarder` is the relay and capture loop.
- `Server` joins all of it: the accept loop, the pool, and one state machine per worker for
  `process_client_connection`. `Transparency` and `Conservation` are the theorems about all runs, `Conversation`
  those about one worker from its first statement to its last.
- `Common` holds shared vocabulary.

A C string is a `string` of the characters before its NUL; a response body is a `seq<byte>`. An allocation, a read
and a write succeed or fail as an extra argument says. The body of a cache or metrics function under its mutex is
one atomic step.

## What the proofs show about the code

- **Byte budget.** `cache->current_size_bytes + incoming_size` (src/cache.c:125, 160, 271) can wrap around, and then
  nothing is evicted. A success would then have stored 2^64 bytes or more, which no address space holds. So a cache
  stays within its budget all along a run if and only if its stored payload stays below 2^64 bytes
  (`BudgetIffStorable`), for every budget that `cache_create` accepts, and so does the server's cache for every
  non-zero `--cache-size` (`ServerBudget`). Recency order and contents do not even need that (`LruOrder`,
  `GetReturnsLatest`).
- **Splitting.** How the network splits a request matters for some requests and not for others. It does not matter,
  for any bytes behind the head, if and only if the head is `Settled` (`SplittingIrrelevantIffSettled`): it is accepted
  and its header block ends with an empty CRLF line, or its request line or URL gets it rejected. There are two ways
  to fail. A request without any header line is rejected when its head is read alone and accepted when another empty
  line arrives in the same read, because the parser looks for the terminator behind the first line break only
  (src/request_parser.c:213-216, `HeaderlessSplittingMatters`). And intake and parser accept a bare `\n\n` where the
  header filter splits on CRLF only, so the same bytes can give two origin requests (`BareLfSplittingMatters`).
- **Capture buffer.** On a read error from the origin the buffer is neither freed nor returned
  (src/response_forwarder.c:189-194); on every other path it is. With enough memory that happens exactly when a read
  fails after between 1 and `max` bytes (`Forward`, `HeldIffFits`), as after a single byte (`OneByteLeaks`).
- **Progress.** An open pool finishes what it has accepted: without new calls it takes a bounded number of steps, and
  at rest its queue is empty and every accepted job handled (`OpenPoolGetsWorkDone`).
- **Growing overwrite without memory.** It fails, but has already evicted other entries and has moved its own entry
  to the front (`PutMeaning`).
- **Refused submits.** In the server no submit is ever refused, because the thread that shuts the pool down is the
  one that submits (`NeverClosedTwice`).
- **Descriptors.** The operating system may hand out a closed client descriptor again at once. Still, a handler that
  has yet to close its socket always works on an open descriptor that no other such handler uses (`NeverClosedTwice`).
- **Cache key.** docs/architecture.md:22 calls the key normalized. The code fills in a missing port and path
  (`DefaultsShareKey`) but does not fold the case of the host, and the model follows the code.

## Model

| member | source | states |
|---|---|---|
| CacheModel.Find | src/cache.c:75-95 | the first entry with the key, or none |
| CacheModel.KeepIsLongest | src/cache.c:125-126 | the policy's prefix fits its budget and every longer prefix exceeds it |
| CacheModel.EvictKeepsLongestFit | src/cache.c:125-141 | with an exact total the eviction loop keeps that longest prefix and leaves its exact size, so the underflow clamp never acts |
| CacheModel.EvictExact | src/cache.c:120-146 | after the loop the incoming object fits beside what is kept |
| CacheModel.ShrinkExact | src/cache.c:164-180 | an overwrite that does not grow, for both outcomes; a failure changes nothing |
| CacheModel.PutMeaning | src/cache.c:242-300 | the exact result of every put on an exact total, including what each failure leaves behind and what happens when the guard's sum wraps around |
| CacheModel.OverflownSum | src/cache.c:125-163 | a put whose guard wraps around either stores 2^64 bytes or more, or stores nothing and keeps total and budget exact |
| CacheModel.PutContract | src/cache.c:242-300 | a put succeeds iff the value has 1 to `maxObject` bytes, fits the budget and gets its memory; a success that leaves less than 2^64 bytes stored keeps the longest fitting recent prefix behind the new value; `evicted` is set iff an entry was dropped; an overwritten entry is never evicted |
| CacheModel.PutValid | src/cache.c:242-300 | every put keeps distinct keys, admissible sizes, the exact total and the budget iff it leaves less than 2^64 bytes stored |
| CacheModel.GetValid | src/cache.c:302-331 | every get keeps the same invariant |
| CacheRuns.PutShape | src/cache.c:148-181 | a put either touches its key and keeps a prefix of the others or only drops a tail, wrap-around included |
| CacheRuns.TouchKeepsOrder | src/cache.c:179 | moving an entry to the front keeps the list ordered by last touch and every dropped key older than every resident one |
| CacheRuns.LruOrder | src/cache.c:120-181 | after every run the list is strictly ordered by last touch and every dropped key was last touched before every resident key |
| CacheRuns.GetReturnsLatest | src/cache.c:302-331 | after every run a get hits iff its key is resident and memory is there, and returns the value of the last successful put |
| CacheRuns.RunValid | src/cache.c:242-331 | every run whose stored payload stays below 2^64 bytes keeps the whole invariant, byte budget included, for every budget |
| CacheRuns.BudgetIffStorable | src/cache.c:120-181 | all along a run the cache is within its budget iff the stored payload stays below 2^64 bytes |
| CacheRuns.AccessKeepsInclusion | src/proxy_server.c:181-227 | one get-then-put-on-miss keeps the smaller cache's list a prefix of the larger one's |
| CacheRuns.Inclusion | src/cache.c:120-146 | on every trace the recency list of the smaller cache is a prefix of the larger one's |
| CacheRuns.MoreMemoryNeverMissesMore | src/cache.c:302-331 | every hit of the smaller cache is a hit of the larger one with the same bytes |
| Lru.LruList.constructor | src/lru.c:5-14 | an empty valid list |
| Lru.LruList.AttachFront | src/lru.c:16-32 | the entry becomes the head, `prev` stays the reverse of `next`, the count the length |
| Lru.LruList.BypassLinks | src/lru.c:40-50 | links that skip one element are the links of the list without it |
| Lru.LruList.Bypass | src/lru.c:40-50 | exactly the neighbours' links and the list's ends skip the entry |
| Lru.LruList.Detach | src/lru.c:34-57 | the list loses exactly that entry and stays valid |
| Lru.LruList.MoveToFront | src/lru.c:59-67 | the entry leads the others in their old order |
| Lru.LruList.RemoveTail | src/lru.c:69-80 | the last entry is removed and returned, or null for an empty list |
| BucketTable.HashKey | src/cache.c:33-44 | the loop computes the 64-bit hash |
| BucketTable.HashIsPolynomial | src/cache.c:33-44 | the hash is 5381 * 33^n plus the octets as digits in base 33, modulo 2^64, and picks one of 128 chains |
| BucketTable.Table.Find | src/cache.c:75-95 | an entry with the key if one is linked, null iff there is none |
| BucketTable.Table.Insert | src/cache.c:293-294 | the chains hold exactly one entry more, in the chain its hash picks |
| BucketTable.Table.Skip | src/cache.c:106-111 | only the chain of the entry changes, and it skips exactly that entry |
| BucketTable.Table.Remove | src/cache.c:97-118 | the chains hold exactly the other entries |
| Cache.Cache.constructor | src/cache.c:197-206 | an empty cache in a valid state |
| Cache.Cache.Create | src/cache.c:183-213 | a new empty cache iff the sizes are acceptable and both allocations succeed |
| Cache.Cache.RemoveOldest | src/cache.c:127-140 | one round of the loop unlinks the oldest entry from list and chain, adjusts the total and frees it |
| Cache.Cache.EvictIfNeeded | src/cache.c:120-146 | the loop computes `Evict` while some entries may be detached, and reports whether it dropped one |
| Cache.Cache.MakeRoom | src/cache.c:157-159 | detach, evict and re-attach leave a valid structure with the entry in front |
| Cache.Cache.Grow | src/cache.c:155-180 | computes the model's growing overwrite, on every path |
| Cache.Cache.Shrink | src/cache.c:164-180 | computes the model's other overwrite, on every path |
| Cache.Cache.Overwrite | src/cache.c:174-179 | the new bytes, size and total, with the entry in front |
| Cache.Cache.Link | src/cache.c:293-296 | a new entry is on its chain and at the front of the list |
| Cache.Cache.Insert | src/cache.c:270-299 | computes the model's insertion, on every path |
| Cache.Cache.Put | src/cache.c:242-300 | refines the model's put for every outcome of the allocations, keeps the structural invariant and the ownership record, and adds only fresh entries |
| Cache.Cache.Get | src/cache.c:302-331 | refines the model's get and keeps the structural invariant |
| Cache.Cache.Perform | src/cache.c:242-331 | any sequence of gets and puts keeps the structural invariant and computes the model's run |
| Cache.Cache.DestroyChain | src/cache.c:224-230 | frees every entry of one chain once, reading each link before its entry is freed |
| Cache.Cache.Destroy | src/cache.c:215-240 | after teardown the freed entries are exactly those ever linked, each freed once |
| Cache.Cache.Lifetime | src/cache.c:183-331 | from creation over any sequence of gets and puts to teardown, every entry ever linked is freed exactly once |
| JobRing.TailIsModular | src/thread_pool.c:93 | the tail is (head + size) mod capacity |
| JobRing.EnqueueAppends | src/thread_pool.c:224-226 | storing a job appends it to the FIFO queue and keeps unused slots empty |
| JobRing.DequeueTakesOldest | src/thread_pool.c:91-94 | taking a job removes the oldest one and empties its slot |
| JobRing.DrainedLeavesNothing | src/thread_pool.c:298-304 | with an empty queue the teardown loop finds no socket |
| JobRing.JobQueue.constructor | src/thread_pool.c:130-138 | the initialisation loop leaves every slot empty |
| JobRing.JobQueue.Submit | src/thread_pool.c:224-226 | in place, the queue grows by the job |
| JobRing.JobQueue.Take | src/thread_pool.c:91-94 | in place, the oldest job is handed out |
| JobRing.JobQueue.CloseLeftover | src/thread_pool.c:298-304 | the loop closes exactly the sockets left in slots |
| ThreadPool.WorkerKeepsExclusive | src/thread_pool.c:81-96 | only the holder of the mutex is inside a critical section, over every worker step |
| ThreadPool.SubmitterKeepsExclusive | src/thread_pool.c:214-228 | the same over every submitter step |
| ThreadPool.WorkerKeepsHandOff | src/thread_pool.c:91-99 | every dequeued job is handled or in the hands of exactly one worker |
| ThreadPool.WorkerKeepsJobsCovered | src/thread_pool.c:81-96 | while a worker sleeps, queued jobs do not outnumber alert workers and owed signals, over worker steps |
| ThreadPool.SubmitterKeepsJobsCovered | src/thread_pool.c:214-228 | the same over submitter steps, for any set of sleepers a signal wakes |
| ThreadPool.WorkerKeepsSlotsCovered | src/thread_pool.c:91-96 | the counterpart for free slots and waiting submitters, over worker steps |
| ThreadPool.SubmitterKeepsSlotsCovered | src/thread_pool.c:215-228 | the same over submitter steps |
| ThreadPool.StepKeepsInv | src/thread_pool.c:53-107 | every step of every thread keeps all protocol invariants |
| ThreadPool.RunKeepsInv | src/thread_pool.c:191-257 | so does every run: mutual exclusion, FIFO, exactly-once hand-off, no lost wake-up |
| ThreadPool.NoLostWakeUp | src/thread_pool.c:81-96 | in every reachable state of an open pool, a queued job and a sleeping worker mean that another worker is about to look, a free slot and a waiting submitter mean that another submitter is about to, except inside a critical section that still owes its signal |
| ThreadPool.OpenNeverStuck | src/thread_pool.c:53-107 | while an open pool has a queued job or a submit under way, some thread can go on without new calls, spurious wake-ups or the closer |
| ThreadPool.WorkerSpendsEffort | src/thread_pool.c:81-99 | every worker step of an open pool but a spurious wake-up lowers a measure of the work left; a take pays for the submitters its signal wakes |
| ThreadPool.SubmitterSpendsEffort | src/thread_pool.c:214-228 | so does every step of a submit under way, which pays for its job and the workers its signal wakes |
| ThreadPool.OpenTerminates | src/thread_pool.c:53-107 | an open pool takes a bounded number of steps without new calls and spurious wake-ups, whatever the scheduler does |
| ThreadPool.OpenPoolGetsWorkDone | src/thread_pool.c:53-107 | and where it comes to rest every submit under way was accepted, none refused, and every accepted job handled, in order |
| ThreadPool.ShutdownIsFinal | src/thread_pool.c:215-222 | after shutdown no submit succeeds, nobody starts to wait, the queue only shrinks |
| ThreadPool.ShutdownStaysFinal | src/thread_pool.c:215-222 | so it stays on every run |
| ThreadPool.ShutdownTerminates | src/thread_pool.c:251-256 | after shutdown every run without new calls is bounded by a measure that each step lowers, whatever the scheduler does |
| ThreadPool.HolderCanStep | src/thread_pool.c:81-96 | whoever holds the mutex can take its next step |
| ThreadPool.ShutdownNeverStuck | src/thread_pool.c:285-289 | after shutdown some step is possible until the pool is destroyed |
| ThreadPool.DestroyedMeansDrained | src/thread_pool.c:259-309 | once the pool is destroyed all accepted jobs were handled, each once, in order of acceptance, and the close loop closed nothing |
| Text.HasTerminator | src/request_parser.c:176-179 | true iff CR LF CR LF or LF LF occurs somewhere in the text |
| Text.FourDigits | src/proxy_server.c:88-89 | port 8080 prints as `8080` |
| RequestParser.LineEnd | src/request_parser.c:24-36 | the first CR or LF |
| RequestParser.PortSound | src/request_parser.c:103-120 | an accepted port text is white space, an optional plus sign and digits of value 1 to 65535, in fewer than 16 characters |
| RequestParser.PortComplete | src/request_parser.c:103-120 | every such text is accepted with its value |
| RequestParser.AuthoritySound | src/request_parser.c:153-171 | an accepted authority is a host without colon and an optional port |
| RequestParser.AuthorityComplete | src/request_parser.c:153-171 | every such authority is accepted |
| RequestParser.TargetSound | src/request_parser.c:122-174 | an accepted URL is http://, an authority without slash, and a path from the first slash or none |
| RequestParser.TargetComplete | src/request_parser.c:122-174 | every such URL is accepted |
| RequestParser.LineSound | src/request_parser.c:55-101 | an accepted request line is GET, one space, a URL without space, one space, HTTP/1.0 or HTTP/1.1 |
| RequestParser.LineComplete | src/request_parser.c:55-101 | every such line is accepted |
| RequestParser.ParserAcceptsGrammar | src/request_parser.c:181-224 | a text parses to a record iff the declarative grammar relates them |
| RequestParser.RoundTrip | src/request_parser.c:181-224 | parsing the printed absolute form of a legal record gives it back |
| RequestParser.ParsedIsLegal | src/request_parser.c:122-174 | every parsed record meets all field limits and character restrictions |
| RequestParser.LegalIffParsed | src/request_parser.c:181-224 | the legal records are exactly the results of a parse |
| HttpRequest.FindLineEnd | src/request_parser.c:24-36 | the cursor loop finds the first line break, or none |
| HttpRequest.HttpRequest.FillRequestLine | src/request_parser.c:55-101 | fills method and version and yields the URL as the specification says |
| HttpRequest.HttpRequest.FillAuthority | src/request_parser.c:153-171 | fills host and port, or fails as specified |
| HttpRequest.HttpRequest.FillTarget | src/request_parser.c:122-174 | fills host, port and path, or fails as specified |
| HttpRequest.HttpRequest.ParseFrom | src/request_parser.c:181-224 | accepts exactly the grammar and then holds the record the grammar gives |
| CacheKey.KeyAlwaysFits | src/proxy_server.c:80-95 | a parsed request's key has at most 2313 characters, so building it never fails |
| CacheKey.KeyLayout | src/proxy_server.c:88-89 | the key is GET, host, port and path with bars between, the port as a numeral that parses to it |
| CacheKey.KeyInjective | src/proxy_server.c:88-89 | keys of parsed requests are equal iff method, host, port and path are |
| CacheKey.KeyNamesTarget | src/request_parser.c:122-174 | two accepted requests have the same key iff their URLs name the same target |
| CacheKey.DefaultsShareTarget | src/request_parser.c:138-156 | a URL without port names the same target as with `:80`, for every path; without path as with `/`, for every authority |
| CacheKey.DefaultsShareKey | src/proxy_server.c:80-95 | requests whose URLs differ only in a spelled-out port 80 or path `/` have the same key |
| OriginRequest.FirstBreak | src/response_forwarder.c:47 | a line is cut exactly at its CRLF even if it ends in a CR |
| OriginRequest.JoinedLinesReadBack | src/response_forwarder.c:46-89 | joined lines are read back exactly, whatever follows the empty line |
| OriginRequest.JoinedLinesAreTheBlock | src/response_forwarder.c:46-89 | the lines joined by CRLF are the block up to its empty line, or the whole open block |
| OriginRequest.HopMeans | src/response_forwarder.c:63-72 | a field line is dropped iff its name is host, connection or proxy-connection, characters being equal or the two cases of one ASCII letter |
| OriginRequest.HostIsDropped | src/response_forwarder.c:67 | `Host: h` is dropped |
| OriginRequest.ConnectionIsDropped | src/response_forwarder.c:68 | `CONNECTION: x` is dropped |
| OriginRequest.HostsIsKept | src/response_forwarder.c:67 | `Hosts: h` is kept |
| OriginRequest.KeptCount | src/response_forwarder.c:63-82 | every line with another name is kept as often as it occurs, host, connection and proxy-connection never |
| OriginRequest.KeptConcat | src/response_forwarder.c:46-89 | lines are kept independently of their neighbours, in order |
| OriginRequest.FilterIdempotent | src/response_forwarder.c:41-92 | filtering twice changes nothing more |
| OriginRequest.OriginRequestLines | src/response_forwarder.c:94-125 | the output is the origin-form line, one generated Host, one Connection: close, the kept lines in order, and an empty line at the end |
| OriginRequest.OriginTextBegins | src/response_forwarder.c:100-108 | the output begins with GET, path and version, then Host with host and port, then Connection: close |
| OriginRequest.OriginReadsBack | src/response_forwarder.c:94-125 | reading the output back gives method, path, version, host and port of the request, one Connection: close, and the kept lines |
| OriginRequest.OriginTextFits | src/response_forwarder.c:11 | at most 10545 characters, so the buffer always suffices |
| OriginRequest.ClosedIgnoresTail | src/response_forwarder.c:59-61 | nothing behind the first empty line is read |
| OriginRequest.TailIgnoredIffClosed | src/response_forwarder.c:46-89 | the kept lines ignore what follows the block iff it ends with an empty CRLF line |
| OriginBuffer.HeaderNameEquals | src/response_forwarder.c:14-39 | true iff the lengths agree and at each index the characters are equal or the two cases of one ASCII letter |
| OriginBuffer.ShouldSkip | src/response_forwarder.c:63-72 | true iff the line has a colon and the name before it is one of the three, in any mix of cases |
| OriginBuffer.AppendLine | src/response_forwarder.c:74-82 | writes the line iff it fits, nothing for a skipped one |
| OriginBuffer.AppendFilteredHeaders | src/response_forwarder.c:41-92 | fails iff the filtered block does not fit, else appends exactly that block |
| OriginBuffer.BuildOriginRequest | src/response_forwarder.c:94-125 | writes exactly the origin request, -1 iff it does not fit, never for a legal record |
| Intake.ReadRequestBytes | src/proxy_server.c:34-72 | the loop computes `Receive` and leaves the bytes, NUL-terminated, in the buffer |
| Intake.ReceiveMeans | src/proxy_server.c:34-72 | the outcome by the first read that ends the loop: full buffer, blank line arrived, end of stream, or read error |
| Intake.NoEarlyReturn | src/proxy_server.c:45-71 | bytes without a blank line are returned only at the end of the stream, and then all of them |
| Intake.IntakeStopsAfterHead | src/proxy_server.c:45-64 | for every splitting the intake stops with the shortest prefix that ends in CR LF CR LF or LF LF and a prefix of what follows |
| Intake.ParseOfLonger | src/request_parser.c:181-224 | with a blank CRLF line in the header block, further bytes change neither acceptance nor the fields |
| Intake.SplittingIndependence | src/proxy_server.c:34-72 | every way of splitting such a stream gives the same verdict, fields, cache key and origin request |
| Intake.IndependenceIffSettled | src/request_parser.c:181-224 | what arrives with the head leaves verdict, fields, key and origin request alone iff the head is settled: closed if accepted, bad in its first line if rejected |
| Intake.SplittingIrrelevantIffSettled | src/proxy_server.c:34-72 | every way of splitting every stream with this head gives the same request iff the head is settled |
| Intake.HeaderlessSplittingMatters | src/request_parser.c:213-216 | a request without header lines is rejected or accepted depending on how its bytes are split |
| Intake.BareLfSplittingMatters | src/proxy_server.c:29-32 | with a bare-LF terminator two splittings of the same bytes give different origin requests |
| Intake.LimitsAreReached | include/request_parser.h:4-11 | a legal record reaches every field limit, a key of 2313 and an output of 10545 characters |
| Forwarder.Doubled | src/response_forwarder.c:212-217 | the doubling loop ends, reaches the need and stays below twice the need |
| Forwarder.RelayMeans | src/response_forwarder.c:187-243 | the relay delivers the chunks before the first event that goes wrong and ends there; it has also read the chunk that could not be written |
| Forwarder.AbsorbExact | src/response_forwarder.c:204-236 | after each chunk the capture is the exact concatenation, with capacity below twice the limit, or off |
| Forwarder.CaptureExact | src/response_forwarder.c:187-245 | so over any sequence of chunks, and once off it stays off |
| Forwarder.HeldIffFits | src/response_forwarder.c:204-236 | with enough memory the buffer is held after the loop, however it ends, iff what was read has between 1 and the limit bytes |
| Forwarder.OneByteLeaks | src/response_forwarder.c:189-194 | a read error after one byte leaves the buffer held |
| Forwarder.Buffer.Add | src/response_forwarder.c:204-236 | the growing buffer, in place, computes one step of the capture |
| Forwarder.RelayLoop | src/response_forwarder.c:187-243 | the loop computes the relay and the capture, and tells whether a failed read ended it |
| Forwarder.Forward | src/response_forwarder.c:127-256 | succeeds iff every stage does; counts all bytes read; returns a capture only of exactly what was delivered; closes the origin socket once; leaks the buffer iff a read fails while it is held, with enough memory iff between 1 and the limit bytes had been read |
| Server.ServerBudget | src/proxy_server.c:274-277 | on every run of the server whose stored payload stays below 2^64 bytes the cache is well formed and within `--cache-size`, whatever that is, and takes objects up to min(262144, cache size) |
| Transparency.PutItems | src/cache.c:242-300 | a put never leaves an entry that was not there or is not the one being stored |
| Transparency.BackedIsReplayable | src/proxy_server.c:181-182 | an entry under the key of a request was relayed for the same method, host, port and path |
| Transparency.LookUpIsReplay | src/proxy_server.c:181-196 | a hit returns the bytes of a completed relay for the same target |
| Transparency.EventIsSound | src/response_forwarder.c:187-243 | each event keeps what a worker has relayed and captured those of its events, and the relay goes on iff the event is good |
| Transparency.StepKeepsSound | src/proxy_server.c:97-233 | every step of every worker and of the accept loop keeps every cached entry and every handler tied to completed relays |
| Transparency.HitsReplayRelays | src/proxy_server.c:179-228 | in every reachable state, whatever the interleaving, a hit replays the complete bytes of an earlier forward that returned 0, 1 to 262144 of them |
| Transparency.RelaysFollowEvents | src/response_forwarder.c:187-255 | in every reachable state a relaying worker has delivered exactly what it read and captured what the capture loop does; one that has fetched saw nothing go wrong; one that failed did, or failed before its first read |
| Transparency.HistoryIsSound | src/proxy_server.c:179-228 | every relay on record went well from first event to last, and everything ever written as a hit is what such a relay for the same target delivered |
| Transparency.ReceiveAcceptsGrammar | src/proxy_server.c:125-176 | a worker goes on with a request iff the bytes it read are a text of the grammar for it |
| Transparency.LookUpMeans | src/proxy_server.c:179-196 | a look-up hits iff the key is stored and memory is there, with the stored value |
| Transparency.EvictionsAreCounted | src/proxy_server.c:216-222 | a put counts as an eviction iff it succeeded and dropped an entry |
| Transparency.RelayedIsStored | src/proxy_server.c:211-228 | a completely relayed response of 1 to min(262144, cache size) bytes is found under its key afterwards, memory permitting |
| Conservation.HandlerKeepsCloses | src/proxy_server.c:97-233 | every handler path closes its client socket once |
| Conservation.HandlerKeepsCounters | src/metrics.c:80-120 | the active counter equals the handlers between increment and decrement; hits plus misses plus undecided look-ups equal parsed requests |
| Conservation.HandlerKeepsCounts | src/proxy_server.c:97-233 | every counted hit is replayed, every counted miss relayed or counted as a failure, every counted request closed, or on its way there |
| Conservation.ClampNeverActs | src/metrics.c:90-100 | the decrement's guard is always true |
| Conservation.UnclosedIsOpen | src/proxy_server.c:97-233 | a handler that has yet to close its socket works on an open descriptor, even if the same number was closed before |
| Conservation.UnclosedHaveOwnSockets | src/proxy_server.c:97-233 | no two such handlers work on the same descriptor |
| Conservation.PoolKeepsMain | src/proxy_server.c:307-340 | every accepted socket is in the accept loop's hands, with its submit call, or was accepted by the pool in order |
| Conservation.StepKeepsInv | src/proxy_server.c:97-343 | every step of the server keeps all conservation invariants and those of the pool |
| Conservation.NeverClosedTwice | src/proxy_server.c:325-343 | in every reachable state, with descriptors reused, no connection was closed more often than accepted, every close to come hits an open descriptor of its own, and no submit was refused |
| Conservation.SubmitReturnsToPolling | src/proxy_server.c:307-340 | in every reachable state the accept loop goes on after a submit |
| Conservation.AllSettledAtTheEnd | src/proxy_server.c:342-349 | after teardown every accepted connection was closed exactly as often as it was accepted, no descriptor is open, no connection counts as active, hits plus misses equal parsed requests, hits equal replays, misses equal relays plus failures, the total equals the accepted connections, and nothing was left in the queue |
| Conversation.HitConversation | src/proxy_server.c:97-199 | a request whose key is stored gets the stored bytes, is counted once as request and hit, leaves its entry in front and its socket closed |
| Conversation.EventsAreRelayed | src/response_forwarder.c:187-245 | while all goes well one chunk after the other is relayed and captured |
| Conversation.MissConversation | src/proxy_server.c:97-233 | a request whose key is not stored gets exactly the bytes of the answer, is counted once as miss, and the cache is offered what was captured under its key |

## Left out

- ThreadPool.OpenTerminates: counts the return of a handler as a step that is taken, as does `ShutdownTerminates`, because how long a handler runs depends on socket time-outs outside the model.
- CacheRuns.Inclusion: assumes one fixed response per key, no allocation failure, and a larger cache whose payload fits an address space, as the claim needs.
- CacheRuns.RunValid: speaks of runs whose stored payload stays below 2^64 bytes, which are all that can happen; the outcomes of the allocations alone would allow others.
- Intake.SplittingIrrelevantIffSettled: asks for three characters of free buffer behind the head, because with less room a continuation that changes the request may not fit.
- Transparency.HitsReplayRelays: speaks of the bytes looked up; a write error while they are replayed to the client is logged by the code and otherwise ignored.
- Cache.Cache.Destroy: the mutex and the memory of the table itself are not modelled, and a freed entry is recorded rather than made inaccessible.
- Null pointer arguments, invalid sockets and counts of zero or less, which the public functions reject first, are excluded by the types and by the positive capacity of the ring.
- The mutexes of the cache and of the metrics: each call is one atomic step, since its whole body runs under the lock.
- Thread creation failures in `thread_pool_create`, and the Windows variants of the same protocol.
- A thread that calls submit while the pool is being freed; the server has a single submitting thread.
- Sockets, DNS, `select`, time-outs and Winsock: a read is an error, the end, or a non-empty chunk of at most the requested length, and a write passes on everything or fails.
- Logging, error replies, byte counters and the command line.
- Signals and the listener's readiness checks: the accept loop may stop at any time between two connections.
- `int` and `long` widths in the parser and printer: port texts have fewer than 16 characters and buffers at most 12288, so the values stay small.
- Capture sizes as machine words: the server's limit is 262144, far from wrap-around.
