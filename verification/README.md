# Verified model of TDLib's code generators, queues, packers and MTProto core

A Dafny model of the parts of TDLib whose correctness is hardest to see from one function:

- the TL compiler (`td/generate`): the storer and the parser it emits for a schema, given byte-level meaning, and the sharded JSON converter;
- the lock-free queues of the queue benchmark, the echo protocol, and the two together: both threads over two rings;
- the lock-free table and the ledger of the memory profiler, both under every interleaving of threads;
- the source splitter: disjoint sets, then packing of the sets into files;
- the obfuscated TCP transport with its TLS disguise, from the writes of one side to the messages of the other;
- the session state of MTProto: replay window, clock offset, identifiers, salts, and the packets built on top;
- key exchange: Diffie-Hellman, the authorization-key handshake, and the proxy secret with its text codecs.

Objects that the program updates in place are classes whose methods are proved against a pure
specification; algorithms that are expressions are functions; threads are interleavings of
atomic steps under sequential consistency. Clocks, random numbers, hashes, ciphers and the
primality test are parameters, so every theorem holds for all of them. Doubles are reals.

Where the code does not have a property that its design suggests, the model keeps the code,
shows an input on which the property fails, and proves exactly when it holds:

- parsing what was stored does not always give it back. A vector whose elements take no bytes is
  rejected by the length check of the parser (`TlRoundTrip.EmptyElementCounterexample`), and a flag word of
  2^31 or more by its sign check (`LargeFlagsCounterexample`). `RoundTrip` and `RoundTripAnyTail` give the exact condition;
- the JSON converter defines every declared function exactly when at least one source file is asked for (`JsonConverter.EachDefinedOnce`);
- a call of the profiler's table yields a slot of its own hash if and only if the hash is not 0 (`ProfilerTable.RunReturns`,
  with `ZeroHashShares` as the failing run), and the table's size counts its taken slots if and only if hash 0 was
  never inserted (`RunSize`, with `ZerosOnlyCount` and `CrowdedRedirects` as the consequence);
- the magic word in front of a block is never cleared, so the account survives a call of free if and only if the address
  is null, live, without the word, or names no bytes (`ProfilerLedger.Ledger.Free`, with `ReleasedTwice` as the failing calls).

One lemma explains a choice of the code: it writes plain proxy secrets in hexadecimal, because base64 would be
read back if and only if the text does not also read as hexadecimal (`ProxySecret.Base64FormReturns`).

`dafny verify dfyconfig.toml` checks everything.

## Model

| member | source | states |
|---|---|---|
| TlSchema.SupportedExactly | td/generate/tl_writer_td.cpp:38-50 | exactly the supported constructors are kept, in the order of the schema and without repetition |
| TlSchema.WordBits | td/generate/tl_writer_cpp.cpp:439-530 | a bit of the stored flag word is on if and only if it is on in the declared field or one of its `true` fields is set |
| TlRoundTrip.NatRoundTrip | tdutils/td/utils/tl_parsers.h:110-124 | a stored machine word is fetched back and the tail is left |
| TlRoundTrip.StrRoundTrip | tdutils/td/utils/tl_storers.h:52-88 | fetch_string inverts store_string for every string below 2^32 bytes, in each of the three length forms, and consumes the padding |
| TlRoundTrip.WordAtDeclaration | td/generate/tl_writer_cpp.cpp:439-530 | the word assigned at the declaring field is the word every later guard sees |
| TlRoundTrip.GuardAgrees | td/generate/tl_writer_cpp.cpp:216-299 | the parser's guard on an optional field is on exactly when the storer's is |
| TlRoundTrip.BoxingAgrees | td/generate/tl_writer_cpp.cpp:382-407 | storer and parser agree on whether, and with which id, a use of a type is boxed |
| TlRoundTrip.GeneratorAccepts | td/generate/tl_writer_cpp.cpp:140-209 | no assert of the class-name generators fires on a well-formed use of a type |
| TlRoundTrip.Boxed | td/tl/tl_object_store.h:19-28 | the id in front of a boxed value is checked and stripped |
| TlRoundTrip.SwitchDispatches | td/generate/tl_writer_cpp.cpp:682-699 | an id in front selects its constructor and no other |
| TlRoundTrip.ScalarRoundTrip | td/tl/tl_object_parse.h:34-117 | every scalar of every width is fetched back exactly |
| TlRoundTrip.VectorRoundTrip | td/tl/tl_object_parse.h:119-136 | a vector is fetched back exactly when its count passes the length check and all its elements are |
| TlRoundTrip.FieldsRoundTrip | td/generate/tl_writer_cpp.cpp:216-299 | from any field on, the emitted parser reads the fields the emitted storer wrote, with flags, guards and defaults |
| TlRoundTrip.ObjectRoundTrip | td/generate/tl_writer_cpp.cpp:439-530 | a whole object is read back normalised, or rejected exactly when a field is not fetchable |
| TlRoundTrip.RoundTrip | td/generate/tl_writer_cpp.cpp:140-530 | parse after store, for every well-formed schema, type, value and tail: the normalised value and exactly the tail if and only if the value is fetchable, an error otherwise |
| TlRoundTrip.RoundTripAnyTail | td/tl/tl_object_parse.h:119-136 | the round trip works in front of every tail if and only if the value is fetchable with nothing behind it |
| TlRoundTrip.EmptyElementCounterexample | td/tl/tl_object_parse.h:119-136 | a well-formed schema and a typed value for which the round trip fails |
| TlRoundTrip.LargeFlagsRejected | td/generate/tl_writer_cpp.cpp:270-290 | an object whose stored flag word has the sign bit is never read back, for every schema, value and tail |
| TlRoundTrip.LargeFlagsCounterexample | td/generate/tl_writer_cpp.cpp:270-290 | such an object exists: it is typed and fails in front of every tail |
| TlRoundTrip.FetchableMonotone | td/tl/tl_object_parse.h:119-136 | more bytes behind a value never make it unreadable |
| TlRoundTrip.WordNorm | td/generate/tl_writer_cpp.cpp:439-530 | a flag word that has absorbed its `true` fields is stable |
| TlRoundTrip.StoreNorm | td/generate/tl_writer_cpp.cpp:345-407 | store after fetch after store gives the same bytes |
| TlRoundTrip.Deeper | td/tl/tl_object_parse.h:138-145 | a parse that fits the stack gives the same result with any larger stack |
| JsonConverter.IsSuitable | td/generate/tl_json_converter.cpp:33-39 | the counter accepts exactly one file per turn, and the turn does not depend on the file |
| JsonConverter.BelowAll | td/generate/tl_json_converter.cpp:33-39 | every item, dealt or pinned, goes to exactly one of the files |
| JsonConverter.EachDefinedOnce | td/generate/tl_json_converter.cpp:322-329 | each signature is defined in all files together as often as the header declares it, if and only if there is at least one file |
| JsonConverter.InOneFile | td/generate/tl_json_converter.cpp:322-329 | a signature that is declared, hence defined, once is in exactly one source file |
| JsonConverter.HeaderDeclares | td/generate/tl_json_converter.cpp:141-329 | the header declares each signature exactly as often as the names, sides and sizes of the schema call for |
| JsonConverter.DeclaredOnce | td/generate/tl_json_converter.cpp:141-329 | with distinct type, constructor and function names nothing is declared twice |
| JsonConverter.EachInOneFile | td/generate/tl_json_converter.cpp:322-329 | with distinct names every declared signature is defined once, in exactly one source file |
| JsonConverter.GenConstructorFromString | td/generate/tl_json_converter.cpp:191-223 | one table per type with several constructors, and the two dispatching functions pinned to file 1 modulo the count |
| JsonConverter.GenFromJson | td/generate/tl_json_converter.cpp:141-161 | the from_json functions of this file, in order |
| JsonConverter.GenToType | td/generate/tl_json_converter.cpp:41-50 | the to_json functions of one type; the header records exactly the constructors |
| JsonConverter.GenToJson | td/generate/tl_json_converter.cpp:88-122 | the to_json functions of this file; the header's recorded types are exactly those with a to_json |
| JsonConverter.GenFile | td/generate/tl_json_converter.cpp:225-320 | one file is its share of everything, behind the three base functions if it is the first |
| JsonConverter.GenConverter | td/generate/tl_json_converter.cpp:322-329 | for every schema and file count, the partition above, and a switch with a case for exactly the types with a to_json; with distinct names each declared signature is in exactly one file |
| BufferQueue.TestsAgree | benchmark/bench_queue.cpp:242-256 | the wrapped 32-bit tests compute the differences of unbounded counters |
| BufferQueue.PutOverwritesReleased | benchmark/bench_queue.cpp:271-273 | a put only overwrites a value the reader has released |
| BufferQueue.StepRefines | benchmark/bench_queue.cpp:242-282 | each atomic step of the ring is the same step of an unbounded FIFO, enabled at the same time and delivering the next value |
| BufferQueue.RunRepresents | benchmark/bench_queue.cpp:211-332 | after every interleaving, of any length and over any number of wrap-arounds, the ring represents the FIFO |
| BufferQueue.RunCounts | benchmark/bench_queue.cpp:258-282 | the FIFO's counters are what was put and what was taken |
| BufferQueue.NextTaken | benchmark/bench_queue.cpp:258-260 | the next value taken is the oldest untaken value put |
| BufferQueue.RunDelivers | benchmark/bench_queue.cpp:294-328 | in every interleaving the reader receives exactly a prefix of what was put |
| BufferQueue.PutFailsOnlyWhenFull | benchmark/bench_queue.cpp:314-323 | put_noflush gives up if and only if all 1024 slots hold unreleased values |
| BufferQueue.Queue.constructor | benchmark/bench_queue.cpp:237-240 | a new queue is the initial ring |
| BufferQueue.Queue.PutUnsafe | benchmark/bench_queue.cpp:271-273 | performs the put step and nothing else |
| BufferQueue.Queue.GetUnsafe | benchmark/bench_queue.cpp:258-260 | performs the get step and returns the value it takes |
| BufferQueue.Queue.Flush | benchmark/bench_queue.cpp:275-277 | publishes the writer's position |
| BufferQueue.Queue.Release | benchmark/bench_queue.cpp:262-264 | publishes the reader's position |
| BufferQueue.Queue.RefreshReader | benchmark/bench_queue.cpp:266-269 | reloads the writer's position and returns what is ready |
| BufferQueue.Queue.RefreshWriter | benchmark/bench_queue.cpp:279-282 | reloads the reader's position and returns the room |
| BufferQueue.Queue.PutNoFlush | benchmark/bench_queue.cpp:314-323 | puts, refreshing first only when the cached room is used up, and fails only when there is none |
| BufferedFdQueue.StepUsesRing | benchmark/bench_queue.cpp:347-426 | the two threads use the ring only where the ring allows it |
| BufferedFdQueue.StepKeeps | benchmark/bench_queue.cpp:347-426 | every action keeps the ring and the control invariant of both threads |
| BufferedFdQueue.RunIsRingRun | benchmark/bench_queue.cpp:335-431 | every run of the two threads is a run of the ring, so it delivers in order |
| BufferedFdQueue.NoLostWakeUp | benchmark/bench_queue.cpp:382-426 | when the reader blocks on a zero eventfd with a published value unread, the writer is still inside put or flush_writer |
| BufferedFdQueue.WriterWakesReader | benchmark/bench_queue.cpp:347-367 | then at most two more steps of the writer make the eventfd readable |
| EchoProtocol.StartInv | benchmark/bench_queue.cpp:722-728 | the start has connections + 4 * connections * rounds steps ahead of it |
| EchoProtocol.OnlyToken | benchmark/bench_queue.cpp:705-743 | a held value is the only token of its connection |
| EchoProtocol.StepKeeps | benchmark/bench_queue.cpp:705-743 | no CHECK fails, every connection keeps one token, each step uses up exactly one of the remaining |
| EchoProtocol.RunKeeps | benchmark/bench_queue.cpp:705-743 | in every reachable state every possible step passes its CHECKs |
| EchoProtocol.NoDeadlock | benchmark/bench_queue.cpp:705-743 | when nothing can move, both sides have stopped and every connection was answered to the end |
| EchoProtocol.RunTerminates | benchmark/bench_queue.cpp:705-743 | every run ends, maximal runs have exactly that length, and everything was answered |
| EchoProtocol.QueuesNeverOverflow | benchmark/bench_queue.cpp:705-743 | all values queued and all values taken but not yet processed, in both directions together, are never more than the connections |
| EchoOverRings.GetTakesHead | benchmark/bench_queue.cpp:294-313 | a reader that sees something in the ring takes the head of the protocol's queue |
| EchoOverRings.ActKeeps | benchmark/bench_queue.cpp:294-328 | every ring operation of either thread keeps the protocol, both rings and the correspondence between them |
| EchoOverRings.JointRun | benchmark/bench_queue.cpp:705-743 | every interleaving of the two threads' ring operations is a run of the protocol over FIFOs |
| EchoOverRings.PutNeverFatal | benchmark/bench_queue.cpp:314-323 | the fatal error of put_noflush is unreachable on both rings in every interleaving |
| EchoOverRings.JointNoDeadlock | benchmark/bench_queue.cpp:705-743 | threads that can only poll in vain have finished, and every connection was answered to the end |
| ProfilerTable.EmptyMeansAbsent | memprof/memprof.cpp:158-176 | a probe that stands at an empty slot has shown that its hash is nowhere in the table |
| ProfilerTable.HashesUnique | memprof/memprof.cpp:154-191 | no hash fills two slots |
| ProfilerTable.OccupiedBound | memprof/memprof.cpp:160-169 | at most half the table, one slot per thread and the unknown slot are taken; the forced assert holds |
| ProfilerTable.AdvanceOk | memprof/memprof.cpp:179-189 | the second wrap-around, where the program aborts, cannot happen |
| ProfilerTable.StepKeeps | memprof/memprof.cpp:154-191 | any thread's next atomic operation keeps filled slots and the invariant, and aborts nobody |
| ProfilerTable.BeginKeeps | memprof/memprof.cpp:154-157 | a new call, whatever its hash, keeps the invariant |
| ProfilerTable.RunSafe | memprof/memprof.cpp:146-191 | in every interleaving of calls with any hashes, always: unique hashes, no abort, bounded load |
| ProfilerTable.RunMonotone | memprof/memprof.cpp:171-178 | a filled slot keeps its hash for the rest of the run |
| ProfilerTable.RunReturns | memprof/memprof.cpp:154-191 | a call that returns, for its own hash or redirected to the unknown one, yields the one slot of that hash if and only if the hash is not 0 |
| ProfilerTable.RunSlots | memprof/memprof.cpp:154-191 | two returned calls with hashes other than 0 share a slot if and only if they share the hash |
| ProfilerTable.RunSize | memprof/memprof.cpp:171-176 | the size counts the taken slots plus every insertion of hash 0; it counts the slots alone if and only if hash 0 was never inserted |
| ProfilerTable.RunBounded | memprof/memprof.cpp:154-191 | in every interleaving a call on a table of m slots ends within 24 m + 12 operations of its own thread |
| ProfilerTable.ZeroHashShares | memprof/memprof.cpp:154-178 | a run in which a call with hash 0 and a call with another hash are given the same slot |
| ProfilerTable.ZerosOnlyCount | memprof/memprof.cpp:158-176 | calls with hash 0 raise the size and change nothing else, until it is past half |
| ProfilerTable.CrowdedRedirects | memprof/memprof.cpp:159-168 | with the size past half every call is sent to the unknown backtrace, even on an empty table |
| ProfilerTable.UnknownIsNotZero | memprof/memprof.cpp:132-166 | the unknown backtrace never hashes to 0, whatever the number of hashed frames |
| ProfilerTable.SomeHashToZero | memprof/memprof.cpp:132-138 | whatever the other frames, one value of the last makes the hash 0 |
| ProfilerLedger.TakeOne | memprof/memprof.cpp:193-201 | the accounted total does not depend on the order of counting |
| ProfilerLedger.Ledger.RegisterAlloc | memprof/memprof.cpp:203-211 | adds a block to its slot, or stops on a negative size |
| ProfilerLedger.Ledger.RegisterFree | memprof/memprof.cpp:203-211 | the assert on the old value never fails for a live block |
| ProfilerLedger.Ledger.Malloc | memprof/memprof.cpp:215-237 | succeeds exactly when the size survives the cast to 32 bits, and accounts it |
| ProfilerLedger.Ledger.Free | memprof/memprof.cpp:252-267 | takes the named bytes off their slot; the account stays right if and only if the address is null, is a live block, shows no magic word, or its header names no bytes; no assert fails for a live block |
| ProfilerLedger.Ledger.Realloc | memprof/memprof.cpp:276-286 | replaces the old block by the new one in the account, under the same exact condition |
| ProfilerLedger.ReleasedTwice | memprof/memprof.cpp:203-267 | after a second release of a block the account is wrong, and the assert fails exactly if the slot holds less than the block |
| ProfilerLedger.Ledger.GetUsedMemorySize | memprof/memprof.cpp:327-331 | returns exactly the bytes of the live blocks |
| LedgerThreads.StepKeeps | memprof/memprof.cpp:203-286 | every atomic operation of malloc, free and realloc keeps the account; the only assert that can fail is the one on a negative size |
| LedgerThreads.RunAccounts | memprof/memprof.cpp:203-286 | in every interleaving, always: each slot holds the bytes of its live blocks, all slots those of all live blocks, and the program stops exactly on a size that does not fit |
| LedgerThreads.RunReads | memprof/memprof.cpp:193-201 | a total read slot by slot beside running threads lies between the bytes live at its start less those removed since and plus those added since |
| DisjointSets.CompressKeeps | SplitSource.php:3-8 | path compression changes no set |
| DisjointSets.LinkKeeps | SplitSource.php:14-20 | hanging one root under another moves exactly the nodes of its set, whichever root is chosen |
| DisjointSets.RelabelMerges | SplitSource.php:10-21 | the relabelling is the smallest merge of the two sets |
| DisjointSets.UnionFind.constructor | SplitSource.php:158-178 | every function starts as its own set |
| DisjointSets.UnionFind.Find | SplitSource.php:3-8 | terminates with the representative and leaves the sets as they are |
| DisjointSets.UnionFind.Union | SplitSource.php:10-21 | merges exactly the two sets, for either random choice |
| DisjointSets.ChainsJoined | SplitSource.php:180-184 | joined groups and sound merges are exactly connectedness |
| DisjointSets.UnionFind.MergeDependencies | SplitSource.php:180-184 | two functions end in one set if and only if a chain of shared names connects them |
| Packing.LoadsAddUp | SplitSource.php:200-204 | the file sizes add up to the total |
| Packing.FirstSmallest | SplitSource.php:201-201 | the first of the smallest files |
| Packing.Pack | SplitSource.php:198-204 | the loop is the greedy packing and its counters are the true loads |
| Packing.GreedyBound | SplitSource.php:200-204 | files * longest <= total + (files - 1) * largest set |
| Packing.GreedyVersusAny | SplitSource.php:200-204 | within 2 - 1/files of any packing that keeps sets whole |
| Packing.LastFits | SplitSource.php:196-204 | when every set is more than a third of an achievable size, the greedy choice stays within that size |
| Packing.LargestFirstBound | SplitSource.php:196-204 | with sets in descending order, within 4/3 - 1/(3*files) of any packing that keeps sets whole |
| SplitSource.BuildSets | SplitSource.php:185-195 | one entry per representative with exactly its functions, in order, and their length |
| SplitSource.SortBySize | SplitSource.php:196-196 | a permutation of the keys in descending order of size |
| SplitSource.FillFiles | SplitSource.php:198-204 | each file is the concatenation of the sets assigned to it |
| SplitSource.FileSize | SplitSource.php:203-203 | the size of a file is the load the packing accounts for it |
| SplitSource.PlacedOnce | SplitSource.php:187-204 | a function and everything connected to it is in one file once and in no other |
| SplitSource.EachFunctionOnce | SplitSource.php:187-204 | every function lands in exactly one output file, once |
| SplitSource.SetsStayWhole | SplitSource.php:157-204 | connected functions land in the same file |
| SplitSource.LongestFile | SplitSource.php:196-204 | the longest file is within 4/3 - 1/(3*chunks) of the best that keeps sets whole |
| SplitSource.Split | SplitSource.php:152-204 | fails if and only if there are fewer functions than files; otherwise the plan has all of the above |
| TcpTransport.CryptTwice | td/mtproto/TcpTransport.cpp:137-142 | the counter-mode stream is its own inverse at the same offset |
| TcpTransport.CryptConcat | td/mtproto/TcpTransport.cpp:154-162 | encrypting piece by piece is encrypting the whole |
| TcpTransport.ParseStable | td/mtproto/TcpTransport.cpp:20-48 | more bytes behind a complete item do not change it |
| TcpTransport.DrainSplit | td/mtproto/TcpTransport.cpp:20-48 | draining a buffer and then its leftover with new bytes is draining everything at once |
| TcpTransport.FramesRead | td/mtproto/TcpTransport.cpp:50-73 | frames written one after the other are read back one after the other, with nothing left |
| TcpTransport.RecordReads | td/mtproto/TlsReaderByteFlow.cpp:15-37 | a TLS record as section 5.1 of RFC 8446 lays it out is read back with its payload |
| TcpTransport.CarriesMore | td/mtproto/TcpTransport.cpp:192-213 | a record behind whole records extends the payload they carry |
| TcpTransport.HeaderReads | td/mtproto/TcpTransport.cpp:109-142 | a peer derives the key from the wire header and decrypts the protocol magic and the data centre |
| ObfuscatedTransport.PickHeader | td/mtproto/TcpTransport.cpp:87-108 | the first acceptable random header among nine, or none |
| ObfuscatedTransport.Sender.constructor | td/mtproto/TcpTransport.cpp:80-85 | nothing sent yet |
| ObfuscatedTransport.Sender.Init | td/mtproto/TcpTransport.cpp:80-143 | succeeds if and only if one of nine headers is acceptable, and then the header waits in front of an empty log |
| ObfuscatedTransport.Sender.DoWriteMain | td/mtproto/TcpTransport.cpp:164-171 | the header goes out once, in front of the first message |
| ObfuscatedTransport.Sender.DoWriteRecord | td/mtproto/TcpTransport.cpp:192-213 | the output stays whole records, behind one change_cipher_spec record, that carry what was put in |
| ObfuscatedTransport.Sender.DoWriteTls | td/mtproto/TcpTransport.cpp:173-190 | a message of any size is cut into records that carry it and fit the limit |
| ObfuscatedTransport.Sender.Write | td/mtproto/TcpTransport.cpp:154-162 | everything written so far is on the wire, framed, encrypted and in order |
| ObfuscatedTransport.SealedGrows | td/mtproto/TcpTransport.cpp:154-162 | one more frame is encrypted where the keystream stands, behind a header that still waits |
| TransportPeer.BadStays | td/mtproto/TlsReaderByteFlow.cpp:24-27 | bytes behind a malformed record cannot repair it |
| TransportPeer.ChunksDoNotMatter | td/mtproto/TlsReaderByteFlow.cpp:15-37 | however the stream is cut, the peer ends where it would with the whole stream at once |
| TransportPeer.PlainOfWire | td/mtproto/TcpTransport.cpp:80-162 | decrypting the wire gives the frames |
| TransportPeer.Delivered | td/mtproto/TcpTransport.cpp:20-217 | for every sequence of writes without quick acknowledgement and every way to cut the stream, the peer gets exactly the messages in order with at most 15 bytes of padding, nothing is left over, and no record exceeds the limit; the disguise is one change_cipher_spec record and application data only |
| DuplicateChecker.LowerBound | td/mtproto/AuthData.cpp:38-38 | the first position not below the identifier |
| DuplicateChecker.ArrayCheckShape | td/mtproto/AuthData.cpp:19-46 | the fast and the slow path both insert in order; duplicates and too old identifiers are told apart |
| DuplicateChecker.ArraySimulatesSet | td/mtproto/AuthData.cpp:19-46 | on every step the array's newest entries are the set, what the set accepts the array accepts, duplicates agree, and they differ if and only if the identifier is below the set's minimum but not below the array's |
| DuplicateChecker.SetFormsAgree | benchmark/bench_misc.cpp:481-535 | the two set checkers give the same verdict and the same state |
| DuplicateChecker.RunsSimulate | benchmark/bench_misc.cpp:589-622 | the simulation holds after every sequence of identifiers |
| DuplicateChecker.CheckRemembers | td/mtproto/AuthData.cpp:24-36 | an identifier that is stored or below a full half is never accepted and never forgotten |
| DuplicateChecker.NeverAcceptedAgain | td/mtproto/AuthData.cpp:19-46 | an identifier that was checked once is never accepted afterwards, whatever is received and however often the array is halved |
| DuplicateChecker.Checker.constructor | td/mtproto/AuthData.h:44-54 | an empty window |
| DuplicateChecker.Checker.Halve | td/mtproto/AuthData.cpp:25-28 | the upper half moves down in place |
| DuplicateChecker.Checker.FindPlace | td/mtproto/AuthData.cpp:38-38 | bisection finds the lower bound |
| DuplicateChecker.Checker.InsertAt | td/mtproto/AuthData.cpp:42-44 | shifts the tail by one place and stores |
| DuplicateChecker.Checker.Check | td/mtproto/AuthData.cpp:19-46 | the in-place check has the verdict and the contents of the specification and keeps the array sorted |
| AuthData.NextIdGrows | td/mtproto/AuthData.cpp:107-125 | identifiers are multiples of four, follow the clock within 2^22 units and grow if and only if they do not wrap around |
| AuthData.Session.constructor | td/mtproto/AuthData.cpp:48-52 | nothing accepted, no clock, and a salt that is invalid at every time after -10000000060 |
| AuthData.Session.UpdateTimeDifference | td/mtproto/AuthData.cpp:70-83 | the offset is one of the differences reported since the reset and within 1e-4 of the largest |
| AuthData.Session.ResetTimeDifference | td/mtproto/AuthData.cpp:85-89 | forgets what was reported |
| AuthData.Session.NeverInTheFuture | td/mtproto/AuthData.cpp:133-137 | an identifier whose second was reported is below the upper end of the window |
| AuthData.Session.CheckPacket | td/mtproto/AuthData.cpp:139-167 | over the life of the session no identifier is accepted twice, errors come in the order of the checks, the window only rejects identifiers that are too old, and the clock is reported changed exactly when the identifier moved it |
| AuthData.Session.CheckWindow | td/mtproto/AuthData.cpp:155-164 | learns from the identifier first, so only the lower end can reject; says exactly when and to what the offset changed |
| AuthData.Session.NextMessageId | td/mtproto/AuthData.cpp:107-125 | the next identifier, larger than all before it |
| AuthData.Session.NextSeqNo | td/mtproto/AuthData.h:267-274 | twice the number of content-related messages so far, plus one for a content-related one |
| AuthData.SortSalts | td/mtproto/AuthData.cpp:96-97 | a permutation in descending order of start |
| AuthData.Session.UpdateSalt | td/mtproto/AuthData.cpp:169-175 | pops exactly the salts that have started and keeps the latest of them |
| AuthData.Session.SetFutureSalts | td/mtproto/AuthData.cpp:91-99 | the current salt is the newest that has started and the rest are exactly those that have not |
| AuthData.Session.SetServerSalt | td/mtproto/AuthData.h:225-231 | valid for nine more minutes and nothing scheduled |
| CryptoStorer.SizeIsWritten | tdutils/td/utils/tl_storers.h:95-141 | the counting pass announces exactly the bytes the writing pass produces, for every storer |
| CryptoStorer.CachedStorer.GetSize | td/mtproto/PacketStorer.h:22-35 | the remembered size is the written size |
| CryptoStorer.ServiceRoundTrip | td/mtproto/CryptoStorer.h:73-80 | every service message decodes to what was asked |
| CryptoPacket.InvokeAfterRoundTrip | td/mtproto/CryptoStorer.h:109-134 | the wrapper names its predecessors and ends where the query starts |
| CryptoPacket.PayloadRead | td/mtproto/CryptoStorer.h:149-154 | a compressed query is a string inside its wrapper |
| CryptoPacket.QueryContentRead | td/mtproto/CryptoStorer.h:141-161 | header, dependencies and payload are taken apart again |
| CryptoPacket.MessageRoundTrip | td/mtproto/SessionConnection.cpp:187-212 | a message is read back with its exact length if and only if its size is whole words |
| CryptoPacket.ManyRoundTrip | td/mtproto/SessionConnection.cpp:214-231 | the loop over a container reads back exactly the messages and leaves the tail, or refuses exactly when one is not whole words |
| CryptoPacket.ConcatWrites | td/mtproto/CryptoStorer.h:226-233 | the chain of storers writes the messages in wire order |
| CryptoPacket.BareWrites | td/mtproto/CryptoStorer.h:290-326 | a bare packet writes its only message, whichever part it came from |
| CryptoPacket.PacketReadsBack | td/mtproto/CryptoStorer.h:290-326 | the packet is one message that ends with it: its only member, or a container of exactly the counted members with exact lengths |
| CryptoBuilder.BareIdIsMember | td/mtproto/CryptoStorer.h:257-287 | the parent identifier of a bare packet is its message's; the inner CHECKs hold and the last branch is dead |
| CryptoBuilder.AddService | td/mtproto/CryptoStorer.h:37-44 | a due message takes the next identifier and an even sequence number |
| CryptoBuilder.AddCancels | td/mtproto/CryptoStorer.h:82-89 | one message per cancelled request, in order |
| CryptoBuilder.AddServices | td/mtproto/CryptoStorer.h:205-225 | exactly the services that are due, in wire order, with strictly increasing identifiers |
| CryptoBuilder.Finish | td/mtproto/CryptoStorer.h:238-288 | a container if and only if there are several messages or the first query is out of its window |
| CryptoBuilder.Build | td/mtproto/CryptoStorer.h:205-288 | all of the above, and a container is known by an identifier above those of all its service messages |
| CryptoBuilder.ServiceArrives | td/mtproto/CryptoStorer.h:45-54 | each service message of a built packet decodes to the service that was due |
| CryptoBuilder.PacketArrives | td/mtproto/SessionConnection.cpp:187-231 | a built packet parses to its end into the queries followed by the issued service messages |
| DhHandshake.PowersAgree | td/mtproto/DhHandshake.cpp:212-217 | (g^a mod p)^b and (g^b mod p)^a agree modulo p for all g, a, b and p > 0 |
| DhHandshake.BinaryRoundTrip | tdutils/td/utils/BigNum.cpp:202-212 | from_binary inverts to_binary |
| DhHandshake.BinaryLength | tdutils/td/utils/BigNum.cpp:202-212 | the encoding has exactly the bytes of the number |
| DhHandshake.NumBitsBounds | td/mtproto/DhHandshake.cpp:23-26 | the bit count is what the power-of-two bounds say |
| DhHandshake.CheckConfig | td/mtproto/DhHandshake.cpp:21-93 | with a cache filled by earlier calls, accepts exactly what is accepted without one; the cache stays true and grows by exactly the primes that were decided |
| DhHandshake.Callback.constructor | benchmark/bench_handshake.cpp:33-50 | an empty cache |
| DhHandshake.InRangeIsProper | td/mtproto/DhHandshake.cpp:95-126 | values in range are greater than 1 and less than p - 1 |
| DhHandshake.Side.SetConfig | td/mtproto/DhHandshake.cpp:128-143 | g^b mod p for the given configuration |
| DhHandshake.Side.SetGAHash | td/mtproto/DhHandshake.cpp:151-156 | the announced hash stands and is not yet confirmed |
| DhHandshake.Side.SetGA | td/mtproto/DhHandshake.cpp:158-166 | stores the other side's value and compares its hash if one was announced |
| DhHandshake.Side.GetGB | td/mtproto/DhHandshake.cpp:173-176 | the shortest bytes that stand for g^b |
| DhHandshake.Side.GetGBHash | td/mtproto/DhHandshake.cpp:177-181 | the hash of those bytes |
| DhHandshake.Side.RunChecks | td/mtproto/DhHandshake.cpp:183-195 | accepts if and only if the hash matches, the configuration is good and both values are in range |
| DhHandshake.Side.GenKey | td/mtproto/DhHandshake.cpp:219-229 | exactly 256 bytes that stand for the shared power, for every modulus under which it fits them |
| DhHandshake.KeyFits | td/mtproto/DhHandshake.cpp:219-220 | under a modulus of at most 2048 bits it always does, so the size check never fails |
| DhHandshake.Exchange | benchmark/bench_handshake.cpp:52-67 | both sides derive the same key, g^(ab) mod p, and the same identifier; a hash announced first is confirmed |
| Handshake.AuthKeyHandshake.constructor | td/mtproto/Handshake.cpp:48-54 | at the start, in the mode the expiry selects, with the largest timeout from now on |
| Handshake.AuthKeyHandshake.SetTimeoutIn | td/mtproto/Handshake.cpp:56-59 | the timeout runs from now; nothing else changes |
| Handshake.AuthKeyHandshake.Clear | td/mtproto/Handshake.cpp:61-66 | back to the start with no query and no history, with the largest timeout from now on |
| Handshake.AuthKeyHandshake.OnStart | td/mtproto/Handshake.cpp:315-325 | sends the first request with a fresh nonce, or starts over |
| Handshake.AuthKeyHandshake.Resume | td/mtproto/Handshake.cpp:299-313 | in a waiting state resends exactly the last request, never empty, and changes nothing else |
| Handshake.AuthKeyHandshake.AnswerResPq | td/mtproto/Handshake.cpp:86-157 | answers if and only if the response is in time, echoes the nonce, names a known key and a product that factors, and the secret fits; the answer, the server nonce, the new nonce and the expiry are exactly those |
| Handshake.AuthKeyHandshake.OnResPq | td/mtproto/Handshake.cpp:86-161 | accepts exactly these responses: into the history, with the second request sent; otherwise changes no state |
| Handshake.AuthKeyHandshake.OpenAnswer | td/mtproto/Handshake.cpp:168-220 | succeeds if and only if both nonces match outside and inside, the size is whole blocks, the padding is short and the hash is that of the inner data; returns that inner data |
| Handshake.AuthKeyHandshake.Agree | td/mtproto/Handshake.cpp:223-228 | agrees if and only if the group passes all checks and both powers are in range; the key, its identifier and the returned g^b are those of the parameters |
| Handshake.AuthKeyHandshake.OnServerDhParams | td/mtproto/Handshake.cpp:163-254 | accepts if and only if the response is in time, opens and its parameters pass; the key, its expiry and creation time, the salt and the time difference follow from the message, and the third request carries the client's power |
| Handshake.AuthKeyHandshake.OnDhGenResponse | td/mtproto/Handshake.cpp:256-285 | finishes if and only if the response confirms both nonces and the hash of the held key |
| Handshake.AuthKeyHandshake.OnMessage | td/mtproto/Handshake.cpp:327-345 | accepts if and only if the message is good for the state and in time: the history grows by that very message, the reply is sent and the next state reached; any other message starts over and sends nothing |
| Handshake.AuthKeyHandshake.IsReadyForFinish | td/mtproto/Handshake.cpp:68-70 | ready means: three messages were accepted in order since the last start; the first fixed the server nonce, the second, decrypted and with its hash checked, held the parameters from which the key was agreed, and the third confirmed the hash of exactly this key |
| Handshake.HonestAnswerIsGood | td/mtproto/Handshake.cpp:181-219 | what a server following the protocol encrypts opens to its own parameters |
| Handshake.SameKey | td/mtproto/Handshake.cpp:223-228 | client and server hold the same 256 bytes, g^(ab) mod p |
| Handshake.HonestRun | td/mtproto/Handshake.cpp:86-345 | the timely answers of a server that follows the protocol lead to Finish, with the same key on both sides and exactly the three requests sent |
| TextCodecs.HexRoundTrip | tdutils/td/utils/misc.cpp:117-142 | decoding inverts encoding |
| TextCodecs.HexEncode | tdutils/td/utils/misc.cpp:133-142 | the loop writes the specified text |
| TextCodecs.HexDecode | tdutils/td/utils/misc.cpp:117-131 | the loop accepts exactly the specified texts |
| TextCodecs.Base64RoundTrip | tdutils/td/utils/base64.cpp:39-158 | decoding inverts encoding in both alphabets, with and without padding |
| TextCodecs.EncodeGroup | tdutils/td/utils/base64.cpp:44-64 | letters written as soon as their bits are known are the letters of the whole group |
| TextCodecs.Base64Encode | tdutils/td/utils/base64.cpp:39-67 | the loop writes the specified text |
| TextCodecs.DecodeGroup | tdutils/td/utils/base64.cpp:97-121 | gathers the letters of a group and rejects unused bits that are not zero |
| TextCodecs.Base64Decode | tdutils/td/utils/base64.cpp:77-146 | padding and letters are accepted exactly as specified |
| ProxySecret.FromLink | td/mtproto/ProxySecret.cpp:15-27 | the first of the three readings that succeeds |
| ProxySecret.TlsLetters | td/mtproto/ProxySecret.h:48-50 | a leading 0xee makes the second letter one of g to v, which is no hexadecimal digit |
| ProxySecret.LinkRoundTrip | td/mtproto/ProxySecret.cpp:15-53 | every secret from_binary accepts comes back from its link |
| ProxySecret.Base64FormReturns | td/mtproto/ProxySecret.cpp:15-53 | the base64 form of an accepted secret is read back if and only if it does not read as hexadecimal |
| ProxySecret.OnlyPlainReadsAsHex | td/mtproto/ProxySecret.cpp:29-53 | that happens only to secrets of 16 bytes |
| ProxySecret.PlainNeedsHex | td/mtproto/ProxySecret.cpp:48-53 | and it does happen: 16 zero bytes |

## Left out

- TlRoundTrip.RoundTrip: parsing goes through TlParser; the UTF-8 and zero-byte fix-ups of TlBufferParser are not modelled, nor are polymorphic arguments (`!X`) and the textual storer.
- TlRoundTrip.Deeper: the C++ call stack is a depth argument of the parser; a parse that exceeds it is not modelled further.
- JsonConverter.GenConverter: the bodies of generated functions and the file system are not modelled; the cases of the switch are a set, not a sorted list.
- BufferQueue.RunRepresents: memory is sequentially consistent; the acquire and release orders of the atomics are not modelled.
- BufferedFdQueue.NoLostWakeUp: the back-off loops may stop at any time, and an eventfd read that fails is not modelled.
- EchoProtocol.RunTerminates: connections are at most 128 so that a value fits 32 bits; client_run2 is not modelled.
- EchoOverRings.JointRun: a thread may poll in vain any number of times, so only the protocol steps of a run are bounded.
- ProfilerTable.RunSafe: at most a fifth of the table size many threads.
- ProfilerLedger.Ledger.Malloc: a size_t counter does not wrap, and headers are values beside the blocks, not bytes in memory.
- LedgerThreads.StepKeeps: a block is released by one thread at most once, as C demands; memory is sequentially consistent.
- SplitSource.Split: the regular expressions that find functions and dependency names are inputs, and arsort is a stable sort.
- TransportPeer.Delivered: quick acknowledgements, the HTTP and abridged transports, and the TLS handshake that precedes the records are not modelled; the reader is the peer's, which also skips the change_cipher_spec record.
- AuthData.Session.NextMessageId: the server time must lie in the range of the cast to 64 bits, outside of which the cast is undefined.
- CryptoBuilder.Build: identifiers do not wrap around during one packet, and all parts fit 32-bit sizes; the optional output identifiers of the info, resend and ping messages are plain fields.
- CryptoPacket.PacketReadsBack: encryption of the packet and the padding around it are not modelled.
- DhHandshake.CheckConfig: the primality test is any predicate; that the residue conditions make g a quadratic residue is not proved.
- DhHandshake.Side.GenKey: a shared power of more than 256 bytes, on which to_binary stops the program, is excluded.
- DhHandshake.Side.SetConfig: a zero modulus, on which BN_mod_exp stops the program, is excluded.
- Handshake.AuthKeyHandshake.OnMessage: TL encoding of requests and responses, RSA padding and ciphers are parameters; a zero modulus counts as a failed agreement.
- Everything else: sockets, actors, timers, connection management, the Telegram API layer and the build system.
