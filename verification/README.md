# Models of nginx 1.0.14 cores

This project models the parts of nginx 1.0.14 whose correctness rests on an invariant, and proves what they promise.
Each module stands for one source file or one component of it. `dafny verify dfyconfig.toml` checks everything; the
modules need nothing but each other.

- **URI and line parsing** (`UsualBitmap`, `Uri`, `UriLaws`, `Automaton`, `RequestLine`, `RequestText`,
  `RequestOrigin`, `HeaderLine`, `StatusLine`, `StatusText`, `FastPath`; `src/http/ngx_http_parse.c`,
  `src/http/ngx_http_request.c`). The one-pass normalisation of a URI, written in place through a moving output
  pointer, equals a two-pass specification: percent-decode, then resolve segments on a stack. The line parsers keep
  their state in locals that each exit of a call stores or does not store; successive calls over growing buffers end
  with the code and the recorded fields of a single call, and what an exit does not store is that of the last cut. What
  they record is said about the octets of the line: where a name, a value, a host or a status text begins and ends, and
  which method and version a line spells. For every request line that the caller takes past normalisation it is said
  exactly when normalising would have changed nothing.
- **Template compiler** (`Script`, `ScriptText`; `src/http/ngx_http_script.c`, `src/http/ngx_http_variables.c`). A template is
  compiled into a length program and a value program. Both agree with direct interpolation of the source, and the
  second pass writes exactly what the first one measured, because the first pass settles every variable slot it reads
  as long as the handlers it asks decide them; the second pass asks no handler if and only if they are all settled.
- **Shared-memory mutex** (`Shmtx`; `src/core/ngx_shmtx.c`). Any number of processes interleave at every atomic
  operation. Mutual exclusion, an exact account of sleepers, no lost wakeup, and a way for every sleeper to be served.
- **Caches with ownership** (`Queue`, `OpenFileCache`, `HttpFileCache`, `HttpCacheLaws`;
  `src/core/ngx_open_file_cache.c`, `src/http/ngx_http_file_cache.c`). Reference counts equal the handles given out,
  descriptors have one owner, nodes leave tree and queue only when nobody uses them, under every interleaving of locked
  sections and across the window in which a deletion drops the lock. Over whole runs: a stored response is found, a key
  is stored from its min_uses-th lookup on, an error lasts as long as it should, and a node just used is not expired.
- **Radix tree** (`RadixTree`; `src/core/ngx_radix_tree.c`). Parent links, pruning and a free list against a plain map
  from bit prefixes to values; the tree of a table without preallocation is the smallest one.
- **Weighted round robin** (`RoundRobin`, `PeerFailures`; `src/http/ngx_http_upstream_round_robin.c`,
  `src/http/ngx_http_upstream.c`).
  The choice by remaining weight, fairness of every round of a run, which peer a request is given when it tries again,
  exactly when it is given none, and how long a failing peer is left alone.
- **Byte streams** (`RequestBody`, `Pipe`, `PipeStock`, `PipeEvents`; `src/http/ngx_http_request_body.c`,
  `src/event/ngx_event_pipe.c`). Whatever the sizes, flags and chunks, the bytes that come out are the bytes that went
  in, in order. What is read is what the connection delivers, cut at the room there is; every code that ends reading or
  writing has its reason in what was delivered, in the buffers or on the disk. In the pipe, raw buffers are referred to
  and reused, so nothing still to be sent is overwritten; and while the upstream goes on, the limits of the
  configuration never leave all raw buffers with the output filter.
- **Arithmetic and codecs** (`Md5Functions`, `Md5`, `Md5Stream`, `Calendar`, `ParseTime`, `Inet`, `InetText`, `Dns`;
  `src/core/ngx_md5.c`, `src/http/ngx_http_parse_time.c`, `src/core/ngx_inet.c`, `src/core/ngx_resolver.c`). Streaming
  equals one-shot hashing, Gauss' formula equals counting days, printers and parsers undo each other, and it is said
  exactly which texts are addresses.

Code that updates things step by step is modelled as methods and classes whose contracts tie the new state to a
specification of the old one; protocols are state machines over their atomic steps. Allocation results, system calls,
the clock, what a connection delivers and what the disk accepts are parameters. Integers are unbounded in Dafny;
where the width matters (the lock word, the ten-bit use counter, 16-bit versions, 64-bit byte counts and octets, the
truncated label length) wrap-around is written out.

Places where the code does not keep what one would expect have a concrete example and an exact condition:

- `FastPath.DotSegmentsSurvive`: the octet that resumes a URI after an embedded space is not looked at, and the caller
  does not test the flag for such spaces, so the path of `GET / /../x` keeps its dot segment. The short cut agrees with
  normalisation if and only if the URI is `FastPath.HarmlessUri` (`FastPath.FastPathAgreesIff`), and always when the
  third flag is clear too (`FastPath.FastPathAgrees`).
- `HeaderLine.SavedHashDependsOnCut`: the exit at the end of the header stores neither the header hash nor the index
  into the lower-case copy, so what the request holds then depends on where its input was cut. It does not if and only
  if no letter of an ignored status line was read before the last cut, or the letters read have the hash and the length
  that were stored before (`HeaderLine.HashIsKeptIff`).
- `Script.UndecidedHandlerDisagrees`: a variable handler that reports success without deciding its slot makes the two
  passes disagree. The second pass asks no handler if and only if the first one settles every variable the program
  mentions (`Script.SecondPassIsSilentIff`).
- `RequestBody.PrereadCanBeLost`: with `client_body_in_single_buffer` and a `client_body_buffer_size` below four bytes,
  the part of the body that came with the header is dropped when the rest fills the second buffer exactly; the body is
  delivered if and only if the configuration is not such a one (`RequestBody.LosesIsALoss`).
- `PipeEvents.FullHeaderEndsResponse`: a response header that fills its buffer to the last byte leaves a buffer without
  room to read into, and the data that comes next is taken for the end of the upstream. An answer is taken for the end
  if and only if it gives no byte into the room there is (`PipeEvents.EventPipe.ReadUpstream`), and with a header buffer
  that has room left there is always some (`PipeEvents.EndIsHeard`).
- `RequestBody.NoMemoryBreaksOff`: with `client_body_buffer_size 0` the second buffer has no memory, so recv() is asked
  for nothing and what it gives is taken for the end of the connection. The buffer has memory in every other
  configuration (`RequestBody.BufferHasMemory`), and then only a failed or empty answer breaks the connection off
  (`RequestBody.BreakIsHeard`).
- `RoundRobin.FirstTryCanMiss`: a first try can be given no peer although one would do, when a failing one is chosen at
  every look. It is given none exactly when as many looks as there are tries met only peers that would not do
  (`RoundRobin.LooksInVain`); a later try is given none exactly when none of the ring would do
  (`RoundRobin.RingIsSearched`).
- `HttpFileCache.InactiveZeroSpins`: with `inactive=0`, which the configuration accepts, an expiry pass never ends while
  a node is in use and nothing else stops the loop. A pass ends if and only if the zone is not `HttpFileCache.Restless`
  (`HttpFileCache.PassEndsIff`).
- `Dns.DotIsNotMeasured`: when a pointer behind the last label leads straight to the end of a name, one dot more is
  copied than was measured, and only then (`Dns.MeasuredIsCopiedIff`).
- `Calendar.TimeCanDecrease`: January and February of year 0 come out 10368 seconds late, because the year wraps around
  (`Calendar.YearZeroIsLate`, `Calendar.TimeIsSecondsIff`), and so later dates do not always have larger times
  (`Calendar.TimeIncreasesIff`).
- `Inet.Broadcast`: `::255.255.255.255` and `::ffff:255.255.255.255` are printed but not read back (`Inet.RoundTrip`).
- `InetText.GapAtEndIsWide`: behind a colon at its end a text is read as if a group of zero followed, so seven groups and
  a double colon, where it stands for one group, are rejected. Exactly which texts are read is said by
  `InetText.Inet6AddrReads`.
- `RadixTree.Tree.Delete`: the code follows the parent link of the root if and only if it is asked to delete a root
  without children.

## Model

| member | source | states |
|---|---|---|
| `UsualBitmap.UsualOctets` | src/http/ngx_http_parse.c:13-33 | for every octet, the bit the code tests in `usual` is set exactly when the octet is none of those the parser treats specially |
| `Uri.WalkFoldsDecoded` | src/http/ngx_http_parse.c:1053-1349 | folding path octets while unescaping equals unescaping first and folding the decoded path, from every point of every input |
| `Uri.FoldIsResolved` | src/http/ngx_http_parse.c:1053-1241 | folding a path octet by octet yields the stack of its '/'-terminated segments with empty and '.' ones dropped and '..' popped, or fails exactly when a pop has nothing to pop |
| `Uri.WalkIsReference` | src/http/ngx_http_parse.c:1027-1349 | one pass reports for every input, with merge_slashes on or off, what the two-pass reference reports: path, argument start, extension, or rejection |
| `Uri.PopFindsDirectory` | src/http/ngx_http_parse.c:1205-1250 | stepping the output pointer back to the previous slashes lands exactly where the popped directory began, and reaches the front exactly when there is none |
| `Uri.ParseComplexUri` | src/http/ngx_http_parse.c:1027-1349 | the in-place scanner terminates, never writes past the buffer sized by the first question mark, and leaves there and in its fields exactly what the reference says |
| `UriLaws.NormaliseIsIdempotent` | src/http/ngx_http_parse.c:1053-1241 | normalising a normalised path changes nothing |
| `UriLaws.NormalisedHasNoDotDirectories` | src/http/ngx_http_parse.c:1143-1241 | no directory of a normalised path is '.' or '..', and with merge_slashes none is empty |
| `UriLaws.SplitUndoesJoin` | src/http/ngx_http_parse.c:1053-1241 | splitting the written path at slashes gives back the segments it was written from |
| `UriLaws.EscapeIsDecoded` | src/http/ngx_http_parse.c:1252-1310 | the escape of an octet in front of any text decodes to the octet, and that of zero is refused |
| `UriLaws.EscapedIsDecoded` | src/http/ngx_http_parse.c:1252-1310 | percent-decoding the two-digit escapes of any octets but zero, their digits in either case, gives the octets back |
| `Automaton.CallsResume` | src/http/ngx_http_parse.c:103-768 | when asking for more stores everything, every sequence of calls over growing buffers ends with the result of one call, and with what its exit stores over what the call at the last cut stored |
| `RequestLine.Request.Parse` | src/http/ngx_http_parse.c:103-768 | the loop computes the run of the request-line automaton from the stored state and position; at every exit, rejections included, the request holds the fields written so far, and the state where the code stores it |
| `RequestLine.RequestLineResumes` | src/http/ngx_http_parse.c:103-768 | for every way of cutting a request line into growing buffers, successive calls end with the code and every recorded field of a single call, rejected lines included; also with its position and state, unless an error returned without storing them, where they are those of the last cut |
| `RequestLine.OffsetsAreOrdered` | src/http/ngx_http_parse.c:103-768 | for every accepted line request_start <= method_end < uri_start < uri_end <= request_end, with the argument start, when set, inside the URI; what is recorded half-way is placed too |
| `RequestText.VerbIsNamed` | src/http/ngx_http_parse.c:157-278 | a method is recorded exactly for its own name |
| `RequestText.LineIsAccepted` | src/http/ngx_http_parse.c:103-768 | every line made of a method name, a path, "HTTP/" and two digits is accepted as a whole, with that method, that path as its URI and that version |
| `RequestOrigin.OriginIsRead` | src/http/ngx_http_parse.c:280-434 | of an absolute URI the schema, the host and the port are recorded where they stand, and the URI kept starts with its path |
| `HeaderLine.Request.Parse` | src/http/ngx_http_parse.c:771-1024 | the loop computes the run of the header-line automaton; hash and index are stored at the end of a line and when input runs out, but neither at the end of the header nor on a rejection |
| `HeaderLine.HeaderResumes` | src/http/ngx_http_parse.c:771-1024 | for every way of cutting a header, successive calls end with the code and the recorded fields of a single call; everything stored agrees at the end of a line and when input runs out, position and state at the end of the header too, and a rejection leaves the position at the last cut |
| `HeaderLine.HashIsKeptIff` | src/http/ngx_http_parse.c:1002-1024 | at the end of the header, which stores neither, stored hash and index agree with those of a single call if and only if no letter of a line to be ignored was read before the last cut, or the letters read have the hash and length stored before |
| `HeaderLine.SavedHashDependsOnCut` | src/http/ngx_http_parse.c:896-1024 | an ignored status line and the end of the header: one call leaves hash and index alone, two calls cut behind "HTTP/" leave those of "http" |
| `HeaderLine.HeaderIsRecorded` | src/http/ngx_http_parse.c:771-1024 | for every header line: the name runs from the start of the line to its first colon or its end; the value is what follows the colon without the spaces around it, and only spaces and the line's end follow it; without a colon it is empty; the line is marked invalid exactly for a bad name, and otherwise hash and lower-case copy are those of the name; a rejected header ends with a zero octet or a stray CR |
| `StatusLine.Upstream.Parse` | src/http/ngx_http_parse.c:1352-1554 | the loop computes the run of the status-line automaton; at every exit, rejections included, the fields hold what was written so far |
| `StatusLine.StatusResumes` | src/http/ngx_http_parse.c:1352-1554 | for every way of cutting a status line, successive calls end with the code and fields of a single call, and with its position unless the line is rejected |
| `StatusLine.StatusIsRecorded` | src/http/ngx_http_parse.c:1352-1554 | the code is the number its three digits spell, and the recorded span starts at them and ends where the line does |
| `StatusText.StatusLineIsAccepted` | src/http/ngx_http_parse.c:1352-1554 | every line of a version, three digits and possibly a text is accepted as a whole, with the number of the digits and its text |
| `FastPath.UnchangedIff` | src/http/ngx_http_parse.c:1027-1349 | normalisation leaves a path as it is if and only if it has no percent sign, question mark or hash sign, and no directory that is a dot segment or, when merging, empty |
| `FastPath.ParsedUriIsNoted` | src/http/ngx_http_parse.c:436-599 | for every line that parses with complex_uri and quoted_uri clear, the recorded extension, arguments and plus flag are those of the octets looked at, none of which would have raised a flag; only an octet that resumes the URI after a space is not looked at |
| `FastPath.FastPathAgreesIff` | src/http/ngx_http_parse.c:436-599 | for every line that the caller (src/http/ngx_http_request.c:759, which tests two flags only) takes past normalisation, normalising would have given the same path, arguments, extension and plus flag if and only if the recorded octets are harmless |
| `FastPath.FastPathAgrees` | src/http/ngx_http_parse.c:436-599 | with space_in_uri clear as well they always are |
| `FastPath.DotSegmentsSurvive` | src/http/ngx_http_parse.c:549-571 | "GET / /../x" leaves both flags clear; the path the caller takes holds a dot segment, the normalised one is "/x" |
| `Script.Compile` | src/http/ngx_http_script.c:336-486 | accepts exactly the well-formed sources; the two programs stay in step and stand for the source's literals, variables and captures, plus a zero octet if asked for; the variables to flush are those of the source |
| `Script.CompileReference` | src/http/ngx_http_script.c:354-438 | reads one $1..$9, $name or ${name} and rejects what the code rejects |
| `ScriptText.TemplatesAreSpelt` | src/http/ngx_http_script.c:336-486 | a source is a template if and only if it is spelt by literal octets, $1 to $9, ${name} and $name with nothing behind that could belong to the name |
| `ScriptText.SpeltIsParsed` | src/http/ngx_http_script.c:336-486 | and what such tokens spell means what they mean |
| `Script.CopyCodeIsSkippedExactly` | src/http/ngx_http_script.c:683-757 | the space reserved for a literal is the space the engine steps over |
| `Script.ValuesInterpolate` | src/http/ngx_http_script.c:739-860 | running value opcodes writes the direct interpolation of their pieces and leaves the slots interpolation leaves |
| `Script.LengthsMeasure` | src/http/ngx_http_script.c:726-828 | running the length program returns exactly as many octets, with the same effect on the slots |
| `Script.SecondPassRepeats` | src/http/ngx_http_variables.c:387-421 | a second run finds every slot settled: it asks no handler and yields the same text whatever a handler would say now |
| `Script.PassesAgree` | src/http/ngx_http_script.c:57-104 | when the handlers the first pass asks decide their slots, the measured length is the length written, and both are those of direct interpolation |
| `Script.SecondPassIsSilentIff` | src/http/ngx_http_variables.c:387-421 | for a given program and request the second pass asks no handler and leaves the request unchanged if and only if after the first pass every variable of the program is settled |
| `Script.DecidedEverywhere` | src/http/ngx_http_variables.c:387-421 | handlers that always decide their slots decide them along every run |
| `Script.Request.GetIndexedVariable` | src/http/ngx_http_variables.c:387-421 | a settled slot is returned untouched; otherwise the handler is asked once and the slot holds its answer or is marked not found |
| `Script.Request.FlushVariables` | src/http/ngx_http_script.c:35-54 | the loop does to the slots what the flush does |
| `Script.FlushUnsettles` | src/http/ngx_http_script.c:35-54 | a flush takes both flags from exactly the listed slots that are not cacheable and changes nothing else |
| `Script.CaptureIsItsSpan` | src/http/ngx_http_script.c:1207-1290 | $n is the n-th captured span octet by octet, and empty if there is none |
| `Script.Request.Measure` | src/http/ngx_http_script.c:57-104 | the length loop computes the length program's run |
| `Script.Request.Write` | src/http/ngx_http_script.c:57-104 | the value loop fills the buffer with the value program's text |
| `Script.ComplexValue` | src/http/ngx_http_script.c:57-104 | the buffer, allocated from the first pass, holds exactly the interpolation of the source after the flush |
| `Script.UndecidedHandlerDisagrees` | src/http/ngx_http_variables.c:387-421 | with a handler that leaves its slot undecided the second pass writes more than was measured |
| `Shmtx.WordFields` | src/core/ngx_shmtx.c:57-177 | while fewer than 2^31 processes wait, the masks and sums on the lock word act on its bit and its count separately |
| `Shmtx.ActsKeepsInvariant` | src/core/ngx_shmtx.c:57-177 | every atomic action of every process keeps: the high bit is set iff exactly one process is between lock and unlock; sleepers = count + semaphore + posts owed; a free lock with counted sleepers has a post, a token or an awake contender |
| `Shmtx.RunKeepsInvariant` | src/core/ngx_shmtx.c:57-177 | so does every state of every run |
| `Shmtx.MutualExclusion` | src/core/ngx_shmtx.c:57-140 | no two processes hold the lock in any reachable state |
| `Shmtx.CountIsBounded` | src/core/ngx_shmtx.c:105-112 | the waiter count never exceeds the number of processes, so it cannot reach the high bit |
| `Shmtx.NoLostWakeup` | src/core/ngx_shmtx.c:142-177 | a process never sleeps on a free lock with nobody on the way to wake somebody |
| `Shmtx.SleeperCanBeServed` | src/core/ngx_shmtx.c:69-177 | from every reachable state there is a continuation in which a given sleeper holds the lock |
| `Shmtx.AttemptSucceedsIff` | src/core/ngx_shmtx.c:57-140 | however the others move in between, an attempt that read a free word ends in holding the lock if and only if the word is still the same; a failed trylock gives up, a failed turn of lock goes on |
| `Shmtx.UnlockFreesIff` | src/core/ngx_shmtx.c:118-177 | however the others move in between, the compare-and-set of an unlock frees the word and owes a post exactly to a counted sleeper, if and only if the word is what was read |
| `Shmtx.TrylockReads` | src/core/ngx_shmtx.c:57-66 | a trylock gives up exactly if the word it reads is locked |
| `Queue.WithoutIsSubsequence` | src/core/ngx_open_file_cache.c:724-771 | removing an entry keeps the order of the others |
| `OpenFileCache.Cache.constructor` | src/core/ngx_open_file_cache.c:43-72 | an empty cache owns nothing |
| `OpenFileCache.Cache.Open` | src/core/ngx_open_file_cache.c:130-460 | whatever the clock does, keeps: tree = queue = current <= max, each count equals the handles given out, detached entries live exactly while counted, every open descriptor has exactly one owner; the caller gets what the cached entry or a fresh probe says, and a handle exactly when a descriptor is granted; the entry then cached under the name holds what was answered, with its use counted; the queue stays sorted by age while the clock has not run backwards |
| `OpenFileCache.Cache.Release` | src/core/ngx_open_file_cache.c:646-703 | takes back exactly one handle and keeps all of that; with a non-negative inactive time its descriptor stays open if and only if another handle uses it or its entry is cached and was used often enough |
| `OpenFileCache.Cache.Expire` | src/core/ngx_open_file_cache.c:723-771 | removes at most three entries from the old end, the first one unconditionally if asked to, the others only when inactive, and stops at the first active one |
| `OpenFileCache.LookupIsUnique` | src/core/ngx_open_file_cache.c:815-852 | a name is found at most once |
| `OpenFileCache.RecentIsAnswered` | src/core/ngx_open_file_cache.c:195-290 | for less than valid seconds after the system was asked, a call is answered what the system said then, whatever it would say now, and from then on what it says now |
| `HttpFileCache.SweepKeeps` | src/http/ngx_http_file_cache.c:1044-1130 | a locked stretch of an expiry pass, however many nodes it removes or moves, keeps counts, owners, the delete mark and the queue order |
| `HttpFileCache.StepKeepsInvariant` | src/http/ngx_http_file_cache.c:515-1180 | every locked section of every actor keeps: references are to live nodes and counted, `updating` has an owner holding a reference, `deleting` has exactly one deleter, the queue holds the tree's nodes sorted by expiry |
| `HttpFileCache.RunKeepsInvariant` | src/http/ngx_http_file_cache.c:515-1180 | so does every state of every run from an empty zone |
| `HttpFileCache.CountIsHoldersAndUnlinker` | src/http/ngx_http_file_cache.c:1133-1180 | count = requests holding the node + 1 while a delete has dropped the lock, and nobody refers to a node that is gone |
| `HttpFileCache.CountIsBounded` | src/http/ngx_http_file_cache.c:525-530 | the twenty-bit count never exceeds the number of actors |
| `HttpFileCache.NodeLeavesUnused` | src/http/ngx_http_file_cache.c:900-942 | a node leaves tree and queue only when nobody but the acting process referred to it |
| `HttpFileCache.UpdateHasOwner` | src/http/ngx_http_file_cache.c:430-443 | while a node is marked as being updated, somebody who still holds it owns the update and clears the mark by letting go |
| `HttpFileCache.SweepIsThorough` | src/http/ngx_http_file_cache.c:1072-1130 | a pass changes expired nodes only, removes exactly unused ones without a file, and may stop at the first unexpired node: none is left that expires before it asks to be called again |
| `HttpFileCache.PassEndsIff` | src/http/ngx_http_file_cache.c:1072-1130 | the loop leaves the lock after finitely many turns exactly unless moving nodes to the head cannot make them unexpired, some node is in use and none stops the loop |
| `HttpFileCache.PassesEnd` | src/http/ngx_http_file_cache.c:1072-1130 | with inactive > 0, in every state of every run, a pass can start and go on: none is kept from leaving the lock |
| `HttpFileCache.InactiveZeroSpins` | src/http/ngx_http_file_cache.c:1072-1130 | with inactive = 0, one lookup that creates a node and a pass at the same time give a pass that never ends |
| `HttpFileCache.VictimIsUnused` | src/http/ngx_http_file_cache.c:981-1041 | forced expiry picks the unused node nearest to the end among the last twenty, if there is one |
| `HttpFileCache.Zone.Exists` | src/http/ngx_http_file_cache.c:515-615 | the section up to where it unlocks: reuse with its renewals, a new node, or a retry, and the answer given then |
| `HttpFileCache.Zone.ExistsAgain` | src/http/ngx_http_file_cache.c:559-615 | the retry inserts without looking again |
| `HttpFileCache.Zone.ReadCold` | src/http/ngx_http_file_cache.c:411-428 | a node found without a file is completed while the loader runs |
| `HttpFileCache.Zone.MarkUpdating` | src/http/ngx_http_file_cache.c:430-443 | exactly one of those who find the response stale becomes its updater |
| `HttpFileCache.Zone.Update` | src/http/ngx_http_file_cache.c:828-843 | the reference is dropped and the update ended, whoever owned it |
| `HttpFileCache.Zone.FreeNode` | src/http/ngx_http_file_cache.c:900-942 | the reference is dropped, an own update ended, an error stored or an unused empty node removed |
| `HttpFileCache.Zone.DeleteNode` | src/http/ngx_http_file_cache.c:1133-1165 | a node with a file is counted and marked before the lock is dropped, another one removed |
| `HttpFileCache.Zone.FinishDelete` | src/http/ngx_http_file_cache.c:1165-1180 | with the lock again, the node goes unless somebody took it meanwhile |
| `HttpFileCache.Zone.ExpireLoop` | src/http/ngx_http_file_cache.c:1044-1130 | the loop computes the locked stretch, and terminates exactly where it can |
| `HttpFileCache.Zone.ForcedExpire` | src/http/ngx_http_file_cache.c:981-1041 | the loop finds the victim within twenty tries |
| `HttpFileCache.Zone.Add` | src/http/ngx_http_file_cache.c:1369-1419 | a file found on disk enters at the head of the queue, known or new |
| `HttpCacheLaws.StoredIsAnswered` | src/http/ngx_http_file_cache.c:515-615 | in every run, once a response was stored or met on disk every lookup that finds its node answers NGX_OK while the node stays and no error is recorded |
| `HttpCacheLaws.OneUpdaterAtATime` | src/http/ngx_http_file_cache.c:430-443 | in every run, between two requests that are to update the same node an update has ended; a request that finds the response stale while none is going on is to update it |
| `HttpCacheLaws.UsesDecide` | src/http/ngx_http_file_cache.c:515-615 | in every run the lookup that makes a node is declined, and while nothing is stored and no error recorded the n-th lookup answers NGX_OK exactly when n, in ten bits, has reached min_uses, and NGX_AGAIN before |
| `HttpCacheLaws.ErrorIsAnswered` | src/http/ngx_http_file_cache.c:546-600 | in every run an error recorded with a time is answered until its time is over; the first lookup after that is declined and forgets it |
| `HttpCacheLaws.FreshNodeIsSpared` | src/http/ngx_http_file_cache.c:1044-1130 | a node that was found, made or loaded is neither removed nor changed by any expiry pass that starts less than inactive later |
| `RadixTree.Tree.Find` | src/core/ngx_radix_tree.c:236-263 | returns the value of the longest stored prefix of the key |
| `RadixTree.BestIsLongest` | src/core/ngx_radix_tree.c:236-263 | that value belongs to a stored prefix and no longer prefix of the key is stored; no value means no prefix is |
| `RadixTree.Tree.Insert` | src/core/ngx_radix_tree.c:108-170 | NGX_BUSY iff the prefix has a value; otherwise the table gains exactly this entry and the tree exactly the prefix's nodes, or memory ran out and the table is unchanged |
| `RadixTree.Tree.Delete` | src/core/ngx_radix_tree.c:173-233 | removes the entry and only nodes on its path; fails, changing nothing, exactly when there is no such node or an inner node has no value; follows a null parent exactly for a root without children |
| `RadixTree.Tree.Alloc` | src/core/ngx_radix_tree.c:266-291 | a node that is in neither the tree nor the free list, or none when free list and pool are exhausted |
| `RadixTree.Tree.Preallocate` | src/core/ngx_radix_tree.c:78-104 | the loop with its wrapping key makes exactly the nodes of all strings of at most so many bits |
| `RadixTree.TidyIsMinimal` | src/core/ngx_radix_tree.c:204-233 | a tree whose leaves hold values has exactly the prefixes of stored strings as nodes; inserting and deleting keep that |
| `RadixTree.CutStands` | src/core/ngx_radix_tree.c:205-233 | unlinking a leaf keeps links, table and free list consistent, and no node is lost |
| `RoundRobin.GetPeer` | src/http/ngx_http_upstream_round_robin.c:591-640 | resets only when no weight is left, and chooses the first peer with weight that is ahead of the next one, or the last |
| `RoundRobin.ChoiceIsUnique` | src/http/ngx_http_upstream_round_robin.c:591-640 | that rule determines the peer |
| `RoundRobin.EveryRoundIsFair` | src/http/ngx_http_upstream_round_robin.c:412-470 | in a run of first-try selections from full weights, the k-th round of as many selections as the weights add up to picks every peer exactly as often as its weight says |
| `RoundRobin.Request.Get` | src/http/ngx_http_upstream_round_robin.c:369-588 | current weights stay within weights and the peer given was not tried before and is not down; a later try gives the first peer of the ring that will do, or NGX_BUSY; a first try looks where the weights choose until a peer will do or the tries are used up; one without failures is one such selection |
| `RoundRobin.RingIsSearched` | src/http/ngx_http_upstream_round_robin.c:475-530 | a later try gives the first peer, from the current one on around the ring for as many as there are tries, that was not tried and is up and below max_fails or past its fail_timeout; NGX_BUSY if and only if there is none |
| `RoundRobin.LooksInVain` | src/http/ngx_http_upstream_round_robin.c:419-473 | a first try gives a peer that was not tried and is neither down nor failing, and NGX_BUSY only after as many looks as there are tries, all at peers that would not do |
| `RoundRobin.FirstTryCanMiss` | src/http/ngx_http_upstream_round_robin.c:419-473 | two peers, one of them failing: both looks of a first try go to that one |
| `RoundRobin.Request.Free` | src/http/ngx_http_upstream_round_robin.c:644-703 | nothing happens in state 0 without tries left; otherwise the next peer becomes current and tries drop, to at most the number of untried peers; only a failed peer changes, as Blamed says |
| `RoundRobin.Request.Serve` | src/http/ngx_http_upstream.c:1081-1135 | the loop of connecting and trying again ends after at most as many turns as there are peers, whatever other requests do to the peers before every attempt, and says why it ended |
| `RoundRobin.RetryDiscipline` | src/http/ngx_http_upstream.c:2839-2893 | in such a sequence of turns no peer is given twice and none that is down |
| `PeerFailures.FailuresAddUp` | src/http/ngx_http_upstream_round_robin.c:644-690 | meanwhile failures are counted one by one and the time of the last one is kept, whatever is given and given back |
| `PeerFailures.FailingPeerRests` | src/http/ngx_http_upstream_round_robin.c:412-690 | in every run of requests that get and give back peers in any order, a peer is given only while it has failed less than max_fails times or when fail_timeout has passed since its last failure, which then forgets them; unless a request is refused, which forgets all failures |
| `PeerFailures.RefusedForFailures` | src/http/ngx_http_upstream_round_robin.c:475-530 | a later try is refused only if every peer of the ring was tried, is down, or has failed that often in that time |
| `RequestBody.Reader.Read` | src/http/ngx_http_request_body.c:28-239 | when the post handler runs, the chain is the first content_length bytes after the header, except for the lost preread part, and the bytes behind the body are untouched; otherwise reading is in progress and nothing is lost; each code has its reason: NGX_OK when the body is complete, NGX_AGAIN when more of it is awaited, an error when the connection breaks off or the disk is full |
| `RequestBody.Reader.DoRead` | src/http/ngx_http_request_body.c:261-386 | the same for every later call and every sequence of recv() results, each of which gives what it has, cut at the room of the buffer and at what is missing |
| `RequestBody.EndsExclude` | src/http/ngx_http_request_body.c:261-343 | never two of: the body is complete, the connection broke off, more is awaited; and reading goes on as long as none holds |
| `RequestBody.EndIsUnique` | src/http/ngx_http_request_body.c:261-343 | the answers of the connection determine how many of them are asked for and what each gives |
| `RequestBody.NoMemoryBreaksOff` | src/http/ngx_http_request_body.c:167-312 | without such memory the first answer with bytes breaks the connection off, whatever it holds |
| `RequestBody.BreakIsHeard` | src/http/ngx_http_request_body.c:288-312 | with such memory, a read that breaks off has met a failed or empty answer, or the end of what the client sends |
| `RequestBody.BufferHasMemory` | src/http/ngx_http_request_body.c:167-239 | the buffer that is read into has memory unless client_body_buffer_size is zero and the body does not fit behind the header |
| `RequestBody.Reader.Prepare` | src/http/ngx_http_request_body.c:167-239 | the buffers and to_write as the branches arrange them |
| `RequestBody.PreparedReads` | src/http/ngx_http_request_body.c:167-239 | they hold exactly the preread part, whatever the sizes and flags |
| `RequestBody.SpillKeeps` | src/http/ngx_http_request_body.c:277-286 | writing a full buffer to the file loses and repeats nothing |
| `RequestBody.TakeKeeps` | src/http/ngx_http_request_body.c:288-316 | rest + bytes taken = content_length, and what was taken with what is to come is the stream |
| `RequestBody.CompleteDelivers` | src/http/ngx_http_request_body.c:345-386 | what is handed over is everything taken, except exactly in the losing case |
| `RequestBody.LosesIsALoss` | src/http/ngx_http_request_body.c:190-232 | after a finished read the delivered chain is the body if and only if the configuration is not the losing one |
| `RequestBody.PrereadCanBeLost` | src/http/ngx_http_request_body.c:377-381 | of "abcd" only "bcd" arrives |
| `RequestBody.Reader.Write` | src/http/ngx_http_request_body.c:390-435 | the file grows by the chain from to_write on, or nothing happens |
| `Pipe.StepKeeps` | src/event/ngx_event_pipe.c:99-853 | every read, spill, hand-over and recycling keeps: sent + busy + out + in + the partial buffer = received; every raw buffer has at most one use; only the first free one is partially filled |
| `Pipe.PipeIsFifo` | src/event/ngx_event_pipe.c:99-853 | in every interleaving the bytes given to the output filter are a prefix of those read, none of them overwritten before it is sent, and all of them once the upstream has ended and the chains are empty |
| `Pipe.DoneHandsEverything` | src/event/ngx_event_pipe.c:447-506 | when the chains are empty, everything read was handed over but for what a failed upstream left in the partial buffer |
| `Pipe.FillChain` | src/event/ngx_event_pipe.c:303-338 | the loop over the buffers read into passes the full ones to the input filter and keeps the partial one first |
| `Pipe.PourText` | src/event/ngx_event_pipe.c:303-338 | filling a chain appends the bytes to what its first buffer held |
| `Pipe.SpillText` | src/event/ngx_event_pipe.c:678-801 | moving buffers from memory to the file re-partitions the queue and changes no byte of it |
| `Pipe.Relink` | src/event/ngx_event_pipe.c:754-800 | the loop gives every written buffer its range and its raw buffer back to the end of the free list |
| `Pipe.AddFreeText` | src/event/ngx_event_pipe.c:916-955 | a freed buffer never gets before a partially filled one |
| `PipeStock.NoEmptySpill` | src/http/modules/ngx_http_proxy_module.c:1770-1812 | in every run, when as many raw buffers are allocated as the configuration allows and busy_size is below their size without one, a pipe without free buffers has incoming ones to save |
| `PipeStock.StepBounded` | src/event/ngx_event_pipe.c:99-853 | every step keeps, while the upstream goes on: no raw buffer of the configured size falls out of the chains, incoming ones are full, and those with the output filter hold at most busy_size |
| `PipeStock.RunRoomy` | src/event/ngx_event_pipe.c:99-853 | every run in which no buffer is allocated without room keeps room in every free buffer |
| `PipeEvents.EventPipe.GetBuffers` | src/event/ngx_event_pipe.c:170-262 | finds free buffers, allocates one, spills, or leaves the loop; a spill is never asked for without anything to spill, and after it buffers are free |
| `PipeEvents.EventPipe.ReadUpstream` | src/event/ngx_event_pipe.c:99-423 | is a sequence of steps in which nothing is sent; what was read grows by the preread bytes and those of the answers asked for, each cut at the room there was; the upstream has ended exactly if the last of them gave no byte, and failed exactly if it says so; otherwise reading stops only at the end of the script, when nothing is ready, when no buffer is to be had, or when the disk is full; a response to be cached is left in the file |
| `PipeEvents.EndIsHeard` | src/event/ngx_event_pipe.c:262-300 | in a pipe whose free buffers have room, every answer with bytes gives some, and the upstream ends only with an answer that says so |
| `PipeEvents.FullHeaderEndsResponse` | src/event/ngx_event_pipe.c:124-300 | with a header buffer that has no room left, whatever comes next is taken for the end |
| `PipeEvents.EventPipe.SpillToFile` | src/event/ngx_event_pipe.c:678-801 | is one spill: of everything when caching, otherwise of the most buffers that fit both limits; or nothing, exactly when not even the first fits, or when the disk is full |
| `PipeEvents.EventPipe.Select` | src/event/ngx_event_pipe.c:540-609 | takes all of out before anything incoming, within busy_size, and stops only at a buffer that would exceed it |
| `PipeEvents.EventPipe.WriteToDownstream` | src/event/ngx_event_pipe.c:427-672 | is a sequence of steps; after the end of the upstream both chains are given to the output filter; before it every call gives it all of out and the most incoming buffers within busy_size, and writing stops only when the client takes no more, nothing is left to give, or eleven empty calls have not helped |
| `Md5Functions.OptimisedF` | src/core/ngx_md5.c:124-138 | F equals its definition in section 3.4 of RFC 1321 on all words |
| `Md5Functions.OptimisedG` | src/core/ngx_md5.c:124-138 | so does G |
| `Md5.TableAgrees` | src/core/ngx_md5.c:195-268 | word order and rotations of the 64 steps are those RFC 1321 gives by formula |
| `Md5.CompressAgrees` | src/core/ngx_md5.c:173-287 | one turn of the block loop is the transformation of section 3.4 of RFC 1321, with its functions, word order, rotations and named registers |
| `Md5.Sum` | src/core/ngx_md5.c:22-118 | for every split of a message into updates the sixteen octets are those of that transformation over the blocks of the padded message |
| `Md5.ResultIsUnique` | src/core/ngx_md5.c:100-115 | the octets determine the registers and are determined by them |
| `Md5Stream.Body` | src/core/ngx_md5.c:173-287 | the block loop compresses the blocks in order |
| `Md5Stream.Context.Update` | src/core/ngx_md5.c:34-62 | the message grows by the data: whole blocks are compressed, the rest is buffered |
| `Md5Stream.Context.Final` | src/core/ngx_md5.c:65-118 | the rest, the mark, zeros and the length in bits modulo 2^64 complete the padded message of sections 3.1 and 3.2 of RFC 1321 |
| `Md5Stream.PadIsWhole` | src/core/ngx_md5.c:65-97 | the padded message is made of whole blocks |
| `Calendar.GaussCounts` | src/http/ngx_http_parse_time.c:234-266 | the formula over March years equals the sum of Gregorian year and month lengths |
| `Calendar.TimeIsSecondsIff` | src/http/ngx_http_parse_time.c:225-275 | for every accepted date the result is the count of seconds since 1970, exactly unless the year wraps around |
| `Calendar.YearZeroIsLate` | src/http/ngx_http_parse_time.c:234-243 | how far off it is then |
| `Calendar.TimeIncreases` | src/http/ngx_http_parse_time.c:234-266 | later dates have larger results of the formula, when the earlier one is after February of year 0 |
| `Calendar.TimeIncreasesIff` | src/http/ngx_http_parse_time.c:234-266 | for any two accepted dates the later one has the larger time, except exactly for a moment of February 29 and one of March 1 of year 0 at most 10368 seconds apart |
| `Calendar.TimeCanDecrease` | src/http/ngx_http_parse_time.c:234-243 | the last second of February 29 and the first of March 1 of year 0 |
| `ParseTime.Parse` | src/http/ngx_http_parse_time.c:14-275 | reads only within the value and accepts exactly what the three layouts and the range checks allow, with that time |
| `ParseTime.FormatsAreRead` | src/http/ngx_http_parse_time.c:36-223 | a date written in any of the formats of section 3.3.1 of RFC 2616 is read back, whatever the day name and whatever follows |
| `ParseTime.FormatsAgree` | src/http/ngx_http_parse_time.c:36-275 | from 1970 on all formats that can express a date give the same, right time |
| `Inet.InetAddr` | src/core/ngx_inet.c:17-57 | the loop accepts four octets and yields their address, INADDR_NONE otherwise |
| `InetText.InetAddrReads` | src/core/ngx_inet.c:17-57 | every text is an IPv4 address if and only if it is four octets with dots between them, an octet being any digits that spell less than 256 in 64 bits |
| `Inet.Inet6Addr` | src/core/ngx_inet.c:62-173 | the address array holds what the parser specification says, after the in-place shift, or the text is rejected |
| `InetText.Inet6AddrReads` | src/core/ngx_inet.c:62-173 | every text, without a colon in front, is an IPv6 address if and only if its fields between colons are groups of one to four hexadecimal digits in either case, at most one empty field and possibly an IPv4 address at the end, with eight groups or, with an empty field, fewer; the address is that of the groups, with zeros for the empty field |
| `InetText.GapAtEndIsWide` | src/core/ngx_inet.c:139-173 | groups and a double colon at the end are an address if and only if there are at most six groups |
| `Inet.Shift` | src/core/ngx_inet.c:151-164 | bytes behind the gap move to the end although source and target overlap, and zeros fill the gap |
| `Inet.Inet6Ntop` | src/core/ngx_inet.c:279-353 | the printed text with the longest zero run left out and the dotted end where the code puts one |
| `Inet.LongestRunIsLongest` | src/core/ngx_inet.c:290-316 | the run left out is of zero words, none of at least two is longer and none as long comes earlier; nothing is left out exactly when there is none |
| `Inet.RoundTrip` | src/core/ngx_inet.c:62-353 | for every 16-byte address, parsing the printed text gives the address back, except for exactly the two addresses whose dotted part is INADDR_NONE |
| `Dns.BuildName` | src/core/ngx_resolver.c:1763-1790 | the question is filled from its end with labels and lengths; it is declined iff a label after the first is empty |
| `Dns.NameRoundTrip` | src/core/ngx_resolver.c:1718-1945 | for every name of at most 127 labels of 1 to 63 bytes, wherever its question lies in a message, decoding returns the name |
| `Dns.MeasurePass` | src/core/ngx_resolver.c:1862-1894 | the first pass follows labels and pointers and finds the length of the name, or rejects exactly what leaves the message or takes more than 128 steps |
| `Dns.MeasuredIsCopiedIff` | src/core/ngx_resolver.c:1862-1945 | the copying pass writes as many bytes as were measured if and only if no pointer behind the last label leads to the end of a name; otherwise one more |
| `Dns.CopiedIs` | src/core/ngx_resolver.c:1917-1945 | it writes the labels with dots between them, and a dot more in that case |
| `Dns.DotIsNotMeasured` | src/core/ngx_resolver.c:1917-1945 | a label "www" and a pointer to a zero: three bytes measured, four copied |
| `Dns.CopyPass` | src/core/ngx_resolver.c:1917-1945 | the second loop, through every pointer, writes exactly that |
| `Dns.CopyName` | src/core/ngx_resolver.c:1853-1945 | both passes together return the name, or reject what the first pass rejects |
| `Dns.BuildAddr` | src/core/ngx_resolver.c:1837-1842 | the counted octets of the address, the lowest first, and in-addr.arpa |
| `Dns.ParsePtr` | src/core/ngx_resolver.c:1432-1453 | the octets at the start of the question and the end it must have, in a question whose name can be measured |
| `Dns.AddrRoundTrip` | src/core/ngx_resolver.c:1439-1845 | for every IPv4 address, decoding its PTR question returns the address, wherever the question lies in a message |

## Left out

- kqueue and vnode events, asynchronous and direct I/O, SSL, Win32 and thread builds, and the file-lock variant of the mutex.
- Red-black tree balancing, the slab allocator, chain bookkeeping and the printf family appear as sets, sequences and functions.
- sh->size of the HTTP file cache: renewing a node zeroes its size without subtracting it, so no exact sum is kept.
- Key uniqueness in the HTTP file cache: after an allocation failure the code inserts without looking again, so a lookup in the model may find any of several nodes with the key.
- HttpFileCache.RunKeepsInvariant: assumes one clock that all processes see and that never runs backwards.
- OpenFileCache.Cache.Open: the order of the queue by age is claimed only while the clock does not run backwards; assumes that the file system does not change within one call and that an equal uniq means the same kind of file.
- Shmtx.ActsKeepsInvariant: assumes that only holders unlock and that sem_wait is interrupted but does not fail otherwise; how long a process spins is left open.
- Script.ComplexValue: compile_args, escaping, regular expressions and the prefix flags are not modelled; handlers are assumed to touch only their own slot, and those asked in the first pass to decide it.
- RadixTree.Tree.Preallocate: takes the number of bits after the default was chosen, at most 32.
- RoundRobin.Request.Get: groups with backup servers, single-peer groups and cached connections are not modelled.
- RequestBody.Reader.Read: allocation failures, the Expect header and timers are not modelled.
- Pipe.PipeIsFifo: downstream errors (draining), cyclic temporary files, which every caller switches off, and input filters other than the copying one are not modelled.
- Md5.CompressAgrees: the sine table of RFC 1321 is not computed; its 64 constants are those of the code.
- Inet.Inet6Addr: bytes are collected first and stored in the address array before the shift, where the code stores them as it reads.
- Dns.ParsePtr: what lies behind the receive buffer is not modelled, but for one byte; the resolver's queues, timers and sending are left out.
- Calendar.TimeIsSecondsIff: time_t has 64 bits.
- The postpone filter, upstream connection handling, mail and auth modules, configuration parsing and logging.
