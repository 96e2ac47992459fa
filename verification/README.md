# Plugin host and runtime: a verified model

This project models the stateful core of the plugin system in Dafny and proves what it promises over whole
runs. `dafny verify dfyconfig.toml` checks everything.

* **Host scheduling** (`CircuitBreakers`, `Schedulers`, `Clients`). Many callers share one circuit breaker, one
  bounded queue and one worker thread. Each atomic action of `ScheduledPluginHost::invoke` and of the worker is
  a step; the theorems hold for every interleaving: nothing is lost or duplicated, callers get their own
  answers, the breaker is a function of its history of calls, and an outstanding probe always comes back. The
  last holds exactly when the queue has room for at least one item: with `max_queue_depth` 0 an admitted probe
  can be refused with nothing pending, and the breaker then refuses everybody for good.
* **Wire format, framing and the socket** (`Wire`, `Envelopes`, `Framing`, `Sessions`). Messages are encoded in
  the Protocol Buffers wire format and framed with a four-byte length. Decoding inverts encoding, chunk
  boundaries do not matter. The runtime handles different `data` events side by side, so replies can overtake
  each other; each request is answered exactly once all the same, and a host that waits for each reply reads
  exactly the outcome of its own request.
* **Warm cache** (`WarmCaches`). An insertion-ordered map used as an LRU cache with a maximum age and
  memory-pressure eviction: LRU inclusion, retention, order of use, minimal eviction.
* **Key-value store** (`Namespaces`, `Globs`, `KvStores`, `KvLocks`). Lazy expiry is indistinguishable from
  expiry at the instant; leased locks exclude each other; storage keys of different plugins do not meet.
* **Activation** (`Activation`). The registry and the activation manager over runtimes that may fail to start,
  to initialize or to shut down.
* **Method ids** (`MethodIds`). FNV-1a (draft-eastlake-fnv, section 2) in two arithmetics.
* **The demo CRUD plugin** (`Crud`). Handlers interleave at their awaits: the warm cache never shows, and
  exactly the stale writes of `mutation_count` are lost.

`StringOrder` and `Wrappers` are support. Code that changes state is modelled by classes whose methods are tied
to functions on values (`View()`); the theorems are about those functions and about all runs of them. What the
environment decides (time, the answers of a transport, whether a runtime starts, what a method returns) is a
parameter of the step or method that would observe it. Fields named `log`, `history`, `calls`, `sent`,
`received` and the like record history for the proofs and are read by nothing else.

Where the code does not meet what its interface suggests, the code is kept as it is, an input shows the
difference, and the exact condition is proved:

| behaviour | shown by | holds exactly when |
|---|---|---|
| a probe is always recorded | `Schedulers.RefusedProbeSticks` | `Schedulers.RecoversExactlyWithAQueue` |
| replies come in the order of requests | `Sessions.RepliesCanOvertake` | `Sessions.OrderedExactlyWhilePolite` |
| locks exclude each other across `clear` | `KvLocks.UnsafeClearBreaksExclusion` | `KvLocks.ExclusionSurvivesExactly` |
| namespaces of one root do not meet | `KvStores.ClearReachesShadowedStore` | `Namespaces.StorageKeysCoincide`, `Namespaces.SegmentCovers` |
| plugins with different ids have different namespaces | `Namespaces.NamespacesCanMeet` | `Namespaces.RendersAlike` |
| `listKeys` lists the store's own keys | `KvStores.ListReportsOthers` | `KvStores.ListIsOwnKeys` |
| a Ready plugin has a runtime | `Activation.FailedShutdownLeavesReady` | `Activation.ActiveHasRuntimeUnlessLost` |
| `mutation_count` counts all mutations | `Crud.TwoBumpsCanRace`, `Crud.RacingBumpsLoseOne` | `Crud.MutationCount` |
| the cache survives another `Init` | `Crud.StaleAfterReopening` | `Crud.ReopeningIsSafeExactly` |
| host and generator hash the same numbers for a name | `MethodIds.NotSameForEveryName` | `MethodIds.EncodingsAgreeExactly` |
| a frame is read back | (payloads from 4 GiB on) | `Framing.FrameRoundTrip` |

## Model

| member | source | states |
|---|---|---|
| CircuitBreakers.HistoryRefinement | crates/plugin-host/src/circuit_breaker.rs:65-102 | after every history of calls, the failure count is the trailing run of failures up to the threshold, the breaker is open iff that run reached it, `opened_at` is the time of the last failure, and a request is allowed exactly when the history admits it (a threshold of 0 behaves as 1) |
| CircuitBreakers.OneProbeBetweenRecords | crates/plugin-host/src/circuit_breaker.rs:66-80 | while open and between two recorded outcomes, exactly the first caller after the reset timeout is let through, nobody if a probe is out or the timeout has not passed |
| CircuitBreakers.FailuresInARow | crates/plugin-host/src/circuit_breaker.rs:83-102 | after a success, the breaker opens with the last of as many failures as the threshold, at that time, and goes on open from the last one |
| CircuitBreakers.HalfOpenMeansProbeOut | crates/plugin-host/src/circuit_breaker.rs:51-63 | half-open is shown iff a probe is out and the timeout has passed; closed is shown iff the run of failures is below the threshold; half-open admits nobody |
| CircuitBreakers.FailuresLeaveATime | crates/plugin-host/src/circuit_breaker.rs:90-102 | a run of failures has a last failure time |
| CircuitBreakers.LastFailureIsInHistory | crates/plugin-host/src/circuit_breaker.rs:90-102 | the last failure time is that of a recorded failure |
| CircuitBreakers.CircuitBreaker.constructor | crates/plugin-host/src/circuit_breaker.rs:41-48 | a new breaker is the one of the empty history |
| CircuitBreakers.CircuitBreaker.State | crates/plugin-host/src/circuit_breaker.rs:51-63 | the visible state, by the history |
| CircuitBreakers.CircuitBreaker.AllowRequest | crates/plugin-host/src/circuit_breaker.rs:66-80 | admits exactly when the history does and extends the history by the question |
| CircuitBreakers.CircuitBreaker.RecordSuccess | crates/plugin-host/src/circuit_breaker.rs:83-87 | extends the history by a success; the fields stay its refinement |
| CircuitBreakers.CircuitBreaker.RecordFailure | crates/plugin-host/src/circuit_breaker.rs:90-102 | extends the history by a failure; the fields stay its refinement, and the u32 count does not overflow |
| Schedulers.StepKeepsInv | crates/plugin-host/src/scheduler.rs:72-158 | every atomic step of a caller or of the worker keeps the invariant |
| Schedulers.ReachableInv | crates/plugin-host/src/scheduler.rs:72-158 | every state that any interleaving reaches satisfies the invariant and the accounting |
| Schedulers.Conservation | crates/plugin-host/src/scheduler.rs:81-158 | every id is before the queue, turned away or enqueued; every enqueued item is queued, with the worker or was sent; breaker successes are exactly the responses recorded, its failures exactly the other answers recorded plus the callers that timed out |
| Schedulers.FailuresOpenBreaker | crates/plugin-host/src/scheduler.rs:116-155 | as many recorded outcomes as the threshold with no response among them, framework errors and timeouts alike, leave the breaker open in every interleaving |
| Schedulers.ResponseClosesBreaker | crates/plugin-host/src/scheduler.rs:151-152 | one recorded response closes it |
| Schedulers.OwnAnswersInOrder | crates/plugin-host/src/scheduler.rs:99-157 | the transport sees each enqueued request once and in queue order, timed-out ones included; the queue never exceeds its depth; an answered caller has the transport's answer to its own request |
| Schedulers.AdmissionFollowsHistory | crates/plugin-host/src/scheduler.rs:84-89 | in every interleaving a caller is admitted exactly when the breaker's history says so, and lock order is time order |
| Schedulers.ProbeIsPending | crates/plugin-host/src/scheduler.rs:84-158 | with a queue, a probe that is out implies an open breaker and an item queued, admitted or at the worker before its record |
| Schedulers.ProbeEndsSoon | crates/plugin-host/src/scheduler.rs:146-158 | a probe is out for at most three worker steps, whatever callers do meanwhile |
| Schedulers.ProbeCanEnd | crates/plugin-host/src/scheduler.rs:84-158 | from every such state some run of enabled steps clears the probe |
| Schedulers.BufferedNeverWedges | crates/plugin-host/src/scheduler.rs:60-158 | with depth at least 1 no reachable state is wedged |
| Schedulers.RefusedProbeSticks | crates/plugin-host/src/scheduler.rs:99-108 | with depth 0 a run reaches a state in which a refused probe is out and nothing is pending |
| Schedulers.StuckForGood | crates/plugin-host/src/scheduler.rs:84-89 | from that state no run gets away |
| Schedulers.UnbufferedCanWedge | crates/plugin-host/src/scheduler.rs:99-108 | with depth 0 the scheduler can wedge |
| Schedulers.RecoversExactlyWithAQueue | crates/plugin-host/src/scheduler.rs:60-158 | the scheduler never wedges iff the queue depth is at least 1 |
| Schedulers.ScheduledPluginHost.constructor | crates/plugin-host/src/scheduler.rs:53-70 | ids start at 1, the queue is empty, the breaker is new |
| Schedulers.ScheduledPluginHost.AllocateId | crates/plugin-host/src/scheduler.rs:81 | the id is the next one, and its caller is the only one before encoding; the new state is reachable |
| Schedulers.ScheduledPluginHost.EncodingFails | crates/plugin-host/src/scheduler.rs:82 | that caller ends with an encoding error; breaker and queue are as before; the new state is reachable |
| Schedulers.ScheduledPluginHost.AskBreaker | crates/plugin-host/src/scheduler.rs:84-89 | the answer is what the breaker's history admits; a refused caller ends with the circuit open; the new state is reachable |
| Schedulers.ScheduledPluginHost.Enqueue | crates/plugin-host/src/scheduler.rs:91-114 | accepted iff there is room, at the end of the queue; otherwise the caller ends as overloaded, without a breaker record; the new state is reachable |
| Schedulers.ScheduledPluginHost.WorkerReceives | crates/plugin-host/src/scheduler.rs:147 | the idle worker takes the head of the queue; the new state is reachable |
| Schedulers.ScheduledPluginHost.TransportAnswers | crates/plugin-host/src/scheduler.rs:148 | the worker's item is logged as sent, once, with its answer; the new state is reachable |
| Schedulers.ScheduledPluginHost.WorkerRecords | crates/plugin-host/src/scheduler.rs:149-155 | the breaker records a success iff the answer is a response, also for a caller that has given up; the new state is reachable |
| Schedulers.ScheduledPluginHost.WorkerReplies | crates/plugin-host/src/scheduler.rs:156 | the answer is left for the caller and the worker is idle again; the new state is reachable |
| Schedulers.ScheduledPluginHost.CallerReceives | crates/plugin-host/src/scheduler.rs:116-130 | the caller's result is the outcome of an answer that the transport gave to this very id; the new state is reachable |
| Schedulers.ScheduledPluginHost.CallerGivesUp | crates/plugin-host/src/scheduler.rs:116-117 | the caller stops waiting; its item stays where it is; the new state is reachable |
| Schedulers.ScheduledPluginHost.CallerRecordsTimeout | crates/plugin-host/src/scheduler.rs:118-127 | one failure is recorded for the caller, and its result is a timeout with its id; the new state is reachable |
| Clients.OnlyOwnResponses | crates/plugin-host/src/client.rs:57-88 | a caller gets a value exactly when the transport answered with a response to that very id whose payload decodes to it |
| Clients.OtherOutcomes | crates/plugin-host/src/client.rs:57-88 | each error is returned exactly in its case: wrong id, framework error, undecodable payload, unexpected message |
| Clients.TransportErrorsPass | crates/plugin-host/src/client.rs:50-55 | an error of the transport is passed on |
| Clients.PluginHost.TakeRequestId | crates/plugin-host/src/client.rs:91-95 | hands out the next id |
| Clients.PluginHost.Invoke | crates/plugin-host/src/client.rs:38-89 | sends ids 1, 2, 3, ..., never one twice; the result is the correlated outcome, and an id is used up even when encoding fails |
| Wire.VarintRoundTrip | crates/plugin-protocol/src/envelope.rs:77-89 | decoding a base 128 varint gives the number and the rest, for every u64 |
| Wire.VarintDigits | crates/plugin-protocol/src/envelope.rs:77-84 | the low seven bits of the bytes are the base 128 digits, least significant first |
| Wire.VarintFlags | crates/plugin-protocol/src/envelope.rs:77-84 | the high bit is set on all bytes except the last |
| Wire.VarintSize | crates/plugin-protocol/src/envelope.rs:77-84 | there are no more bytes than the number needs |
| Wire.BadVarintsAreRefused | crates/plugin-protocol/src/envelope.rs:86-89 | a varint that does not end or exceeds 64 bits is refused |
| Wire.RecordRoundTrip | crates/plugin-protocol/src/envelope.rs:77-89 | decoding an encoded record gives the record and the rest |
| Wire.RecordLayout | crates/plugin-protocol/src/envelope.rs:91-156 | the key is eight times the tag plus the number of the wire type, and a length comes before delimited content |
| Wire.CutRecordsAreRefused | crates/plugin-protocol/src/envelope.rs:86-89 | a record longer than the rest of the message is refused |
| Wire.RecordsRoundTrip | crates/plugin-protocol/src/envelope.rs:77-89 | decoding a message that starts with encoded records yields those first |
| Envelopes.EnvelopeRoundTrip | crates/plugin-protocol/src/envelope.rs:77-257 | decoding an encoded message gives the message back, for all ids, method ids, flags, payloads, trace contexts and body kinds |
| Envelopes.EnvelopeLayout | crates/plugin-protocol/src/envelope.rs:77-213 | the exact bytes of every message: version, id unless 0, trace context, and a body under the key of its kind, with literal keys and codes and defaults omitted |
| Envelopes.PingBytes | crates/plugin-protocol/src/envelope.rs:115-120 | a ping is the bytes 08 01 32 00 |
| Envelopes.ResponseBytes | crates/plugin-protocol/src/envelope.rs:109-113 | a response with one payload byte, as bytes |
| Envelopes.RefusedExactly | crates/plugin-protocol/src/envelope.rs:215-257 | each refusal happens exactly in its case: another version, no body, a kind above 2, a code above 3 |
| Envelopes.WrongTypesAreMalformed | crates/plugin-protocol/src/envelope.rs:86-89 | a known field of the wrong wire type makes the message malformed |
| Envelopes.WireRoundTrip | crates/plugin-protocol/src/envelope.rs:91-156 | the same for every wire envelope, unknown kinds and codes and absent bodies included |
| Envelopes.LastOneWins | crates/plugin-protocol/src/envelope.rs:86-156 | decoding two encodings one after the other overlays the second on the first, field by field and into sub-messages |
| Envelopes.EnvelopeMerges | crates/plugin-protocol/src/envelope.rs:129-156 | merging the fields of one envelope into another is the overlay |
| Envelopes.TraceMerges | crates/plugin-protocol/src/envelope.rs:91-99 | merging a trace context overlays it, defaults being omitted |
| Envelopes.BodyMerges | crates/plugin-protocol/src/envelope.rs:101-127 | merging a body of the same kind overlays it |
| Envelopes.UnknownFieldsAreSkipped | crates/plugin-protocol/src/envelope.rs:86-89 | a field with an unknown tag, anywhere in an envelope, does not change what is decoded |
| Envelopes.UnknownInnerFieldsAreSkipped | crates/plugin-protocol/src/envelope.rs:86-127 | nor does one anywhere inside a trace context or a body |
| Envelopes.IntoMessageInverts | crates/plugin-protocol/src/envelope.rs:158-257 | a wire envelope becomes a message exactly when it is the one made from that message |
| Envelopes.OtherVersionsAreRefused | crates/plugin-protocol/src/envelope.rs:215-221 | an encoding starts with the bytes 08 01; with any other version in their place it is refused for that version |
| Envelopes.ControlMessage.FromWire | crates/plugin-protocol/src/control.rs:11-27 | a wire code decodes to a kind iff that kind has that code |
| Envelopes.FrameworkErrorCode.FromWire | crates/plugin-protocol/src/control.rs:38-56 | a wire code decodes to an error code iff that code has it |
| Framing.LengthRoundTrip | packages/plugin-runtime/src/protocol.ts:23-30 | the length prefix is the length modulo 2 to the 32, big-endian |
| Framing.PrefixBytes | packages/plugin-runtime/src/protocol.ts:26-27 | the four bytes of the length prefix, the most significant first |
| Framing.LengthOfBytes | packages/plugin-runtime/src/protocol.ts:43 | the length that four bytes stand for |
| Framing.FrameRoundTrip | packages/plugin-runtime/src/protocol.ts:23-57 | a frame is parsed back iff its payload is shorter than 2 to the 32 bytes |
| Framing.ParseReassembles | packages/plugin-runtime/src/protocol.ts:35-57 | frames and remainder put back together are the input, and the remainder holds no complete frame |
| Framing.ParseIsUnique | packages/plugin-runtime/src/protocol.ts:35-57 | there is only one such split |
| Framing.SplitsCompose | packages/plugin-runtime/src/socket-server.ts:131-134 | splitting what arrived, then the remainder with more, splits the whole |
| Framing.ChunkingDoesNotMatter | packages/plugin-runtime/src/socket-server.ts:129-134 | feeding chunks through the buffer is parsing their concatenation |
| Framing.StreamRoundTrip | packages/plugin-runtime/src/socket-server.ts:129-134 | however encoded frames are cut, exactly their payloads come out in order and nothing remains |
| Framing.StreamPrefix | packages/plugin-runtime/src/socket-server.ts:129-134 | after each prefix, the delivered payloads are a prefix and the remainder is the undecoded suffix |
| Framing.StuckOnBadFrame | packages/plugin-runtime/src/socket-server.ts:131-134 | once a complete frame cannot be decoded, no later chunk helps |
| Framing.EncodeFrame | packages/plugin-runtime/src/protocol.ts:23-30 | fills a buffer with the four-byte length and the payload |
| Framing.TryDecodeFrames | packages/plugin-runtime/src/protocol.ts:35-57 | the offset loop terminates and computes the recursive parse, or throws iff a complete frame cannot be decoded |
| Framing.SocketReader.OnData | packages/plugin-runtime/src/socket-server.ts:131-136 | after each chunk, the frames delivered and the buffer are exactly what was received, and after a chunk that decodes they are its parse; a throw delivers nothing |
| Framing.DeliveredInOrder | packages/plugin-runtime/src/socket-server.ts:131-134 | the frames delivered are the first ones sent, whenever the bytes received are a part of those sent |
| Sessions.RepliesEcho | packages/plugin-runtime/src/socket-server.ts:152-198 | every envelope but a shutdown gets a reply the host understands, with its own id and trace; a response iff a request succeeded, a pong iff it was a ping |
| Sessions.ReplyNumbers | packages/plugin-runtime/src/socket-server.ts:152-287 | version, kind and code of every reply as numbers, for each kind of envelope |
| Sessions.ReplyIsEncoded | packages/plugin-runtime/src/socket-server.ts:200-287 | what is written back is the wire form of the reply to the decoded message |
| Sessions.EachIsAnsweredOnce | packages/plugin-runtime/src/socket-server.ts:127-142 | in every interleaving of `data` events and handlers, each reply answers one envelope with its own id and trace, no envelope is answered twice, replies to one event are in order, and once everything is handled and nobody asked for a shutdown everything has been answered |
| Sessions.RepliesCanOvertake | packages/plugin-runtime/src/socket-server.ts:131-142 | for any two messages that arrive one by one, a run in which the second is answered first |
| Sessions.PoliteRunsAreInOrder | packages/plugin-runtime/src/socket-server.ts:131-142 | when nothing arrives while something is being handled, replies come in the order of what they answer, without a gap |
| Sessions.OrderedExactlyWhilePolite | packages/plugin-runtime/src/socket-server.ts:131-142 | the next `data` event leaves the order of replies safe from every schedule iff it brings no envelope or everything before it has been handled |
| Sessions.WaitingHostIsAnswered | packages/plugin-runtime/src/socket-server.ts:127-142 | for a host that sends the next message after each reply, in chunks of any size, what is written is the replies to its messages in order |
| Sessions.SocketHandler.OnData | packages/plugin-runtime/src/socket-server.ts:131-137 | the `data` event up to its first await: the buffer keeps the incomplete frame, the decoded envelopes get a loop of their own, and the invariant of all interleavings is kept; `ok` is false iff a complete frame cannot be decoded |
| Sessions.SocketHandler.OnReply | packages/plugin-runtime/src/socket-server.ts:136-141 | a loop's reply is ready: its frame is written, once, unless a shutdown has ended the socket, and the loop goes on to its next envelope; the invariant is kept |
| Sessions.ReadsOwnAnswer | crates/plugin-host/src/unix_socket.rs:41-51 | reading the replies off the stream gives them one by one |
| Sessions.InvokeOverSocket | crates/plugin-host/src/client.rs:50-88 | for a host that sends after each reply, in any schedule and after any earlier messages, the next request's caller gets exactly the decoded payload or the framework error its own method produced |
| Sessions.OutcomeIsHandled | crates/plugin-host/src/client.rs:57-88 | the reply to a request is accepted as the answer to it |
| Sessions.UnixSocketTransport.ReadExact | crates/plugin-host/src/unix_socket.rs:41-49 | takes exactly that many bytes, or fails at the end of the stream |
| Sessions.UnixSocketTransport.Send | crates/plugin-host/src/unix_socket.rs:29-52 | writes one frame and reads one frame, leaving the rest unread |
| WarmCaches.Inclusion | packages/plugin-runtime/src/cache.ts:45-78 | for all runs of gets and sets, the smaller cache is a subsequence of the larger with at most the difference in capacity fewer entries, and its hits are hits of the larger with the same value |
| WarmCaches.StepIncluded | packages/plugin-runtime/src/cache.ts:45-78 | each operation keeps that inclusion |
| WarmCaches.StoredInOrderOfUse | packages/plugin-runtime/src/cache.ts:49-100 | over all runs, memory pressure included, the stored order is strictly the order of last use, and what is stored is what was last set |
| WarmCaches.HitsAreCurrent | packages/plugin-runtime/src/cache.ts:49-100 | over all runs, memory pressure included, a hit is the value last set, and not older than the maximum age |
| WarmCaches.GetsWhatIsStored | packages/plugin-runtime/src/cache.ts:49-59 | after any run, a get misses exactly when no entry of the key is stored within the maximum age, and otherwise returns that entry's value |
| WarmCaches.GetsWhileRecent | packages/plugin-runtime/src/cache.ts:45-78 | a get of a key that is young enough and recently enough used returns the value last set |
| WarmCaches.BoundsHold | packages/plugin-runtime/src/cache.ts:49-100 | over all runs, memory pressure included, nothing older than the maximum age is stored after an operation, the size is within the bound, and the key just set is the newest unless the bound is 0 |
| WarmCaches.EvictsShortestPrefix | packages/plugin-runtime/src/cache.ts:75-77 | capacity eviction drops the shortest prefix that restores the bound |
| WarmCaches.RetainedWhileRecent | packages/plugin-runtime/src/cache.ts:45-78 | an unexpired entry stays while fewer than `maxEntries` other keys have been used, and no pressure has come, since its last use |
| WarmCaches.AfterDistinct | packages/plugin-runtime/src/cache.ts:56-73 | a key is stored at most once |
| WarmCaches.WarmCache.Get | packages/plugin-runtime/src/cache.ts:49-59 | the answer is the value stored under the key when it is within the maximum age, and nothing otherwise; the contents become those of the specification |
| WarmCaches.WarmCache.Has | packages/plugin-runtime/src/cache.ts:45-47 | true exactly when the key is stored within the maximum age; counts as a use |
| WarmCaches.WarmCache.Set | packages/plugin-runtime/src/cache.ts:61-78 | the contents become those of the specification, by pruning, moving to the end and evicting in a loop |
| WarmCaches.WarmCache.HandleMemoryPressure | packages/plugin-runtime/src/cache.ts:80-100 | hard from the hard limit on, soft from the soft limit on; keeps a suffix, and `evicted` is the least number of oldest entries whose removal brings the weight to half the soft limit, or to 0 under hard pressure |
| WarmCaches.PressureRises | packages/plugin-runtime/src/cache.ts:102-116 | rising usage never lowers the pressure, and soft pressure exists iff the soft limit is below the hard one |
| WarmCaches.WarmCache.PruneExpired | packages/plugin-runtime/src/cache.ts:118-124 | keeps exactly the entries within the maximum age, in order |
| WarmCaches.WarmCache.EvictOldest | packages/plugin-runtime/src/cache.ts:126-131 | drops the first entry, if any |
| WarmCaches.WarmCache.TotalWeight | packages/plugin-runtime/src/cache.ts:133-139 | the sum of all weights |
| Namespaces.SanitizeComponent | crates/plugin-kv/src/config.rs:108-116 | character by character, safe ones are kept and all others become an underscore, so no separator remains |
| Namespaces.IdentityOf | crates/plugin-kv/src/config.rs:77-86 | sanitized identities contain no separator |
| Namespaces.SanitizedAlike | crates/plugin-kv/src/config.rs:108-116 | two ids sanitize to the same iff they have the same length and differ only where both have an underscore or an unsafe character |
| Namespaces.RendersAlike | crates/plugin-kv/src/config.rs:77-86 | two plugins get the same namespace iff the ids that the policy includes sanitize to the same |
| Namespaces.NamespacesCanMeet | crates/plugin-kv/src/config.rs:77-86 | two ids that share a namespace |
| Namespaces.BareKeyInverts | packages/plugin-runtime/src/kv.ts:101-119 | the bare key of a storage key is the key; other keys are left alone |
| Namespaces.KeysAreSpelled | packages/plugin-runtime/src/kv.ts:101-107 | a namespace is root, plugin and instance joined by colons, and a storage key the namespace, `data` or `lock`, and the key |
| Namespaces.KeysAreChecked | packages/plugin-runtime/src/kv.ts:109-114 | valid keys are 1 to 512 letters, digits, colons, underscores and dashes |
| Namespaces.CutAtColon | crates/plugin-kv/src/config.rs:77-86 | text can be cut in only one way at the first colon |
| Namespaces.StorageKeysCoincide | crates/plugin-kv/src/config.rs:77-86 | two storage keys are equal iff identity, segment and key are, or one identity without an instance meets one whose instance is called `data` or `lock` |
| Namespaces.SegmentCovers | packages/plugin-runtime/src/kv.ts:176-189 | which keys of which stores `clear` reaches, as an if and only if |
| Namespaces.OneShapeNeverCoincides | crates/plugin-kv/src/config.rs:77-86 | when all identities name an instance or none does, the mapping is injective and `clear` stays inside its store |
| Globs.RegExpMeansGlob | packages/plugin-runtime/src/kv.ts:390-393 | the built regular expression accepts exactly the strings in which literal characters match themselves and a star matches any run without line ends |
| Globs.CharacterMeansItself | packages/plugin-runtime/src/kv.ts:390-393 | a character that is no star matches exactly itself |
| Globs.StarMeansAnyRun | packages/plugin-runtime/src/kv.ts:390-393 | a star matches exactly the strings without line feed, carriage return and the two Unicode separators |
| Globs.PartsMatchParts | packages/plugin-runtime/src/kv.ts:390-393 | a pattern made of two matches a string iff the string is made of two that match them |
| Globs.TextOfOne | packages/plugin-runtime/src/kv.ts:391-392 | the text for each pattern character, with the escaped ones listed |
| Globs.ParsesToTerms | packages/plugin-runtime/src/kv.ts:390-393 | the escaped text parses to one term per pattern character |
| Globs.TermsMeanGlob | packages/plugin-runtime/src/kv.ts:390-393 | matching those terms is matching the pattern |
| Globs.StarMatchesLines | packages/plugin-runtime/src/kv.ts:159-160 | the default pattern matches every string without line ends |
| KvLocks.RunKeepsLocks | packages/plugin-runtime/src/kv.ts:191-223 | over all interleavings every lock belongs to a caller inside, and in each scope of keys every caller inside under an unexpired lease has its lock, unless an unsafe `clear` of that scope intervened |
| KvLocks.MutualExclusion | packages/plugin-runtime/src/kv.ts:191-253 | in each scope of keys, such as those of one store, at most one caller is inside for a key under an unexpired lease as long as clears are safe for that scope |
| KvLocks.ExclusionSurvivesExactly | packages/plugin-runtime/src/kv.ts:183-253 | after clears that were safe, one more `clear` leaves mutual exclusion to every continuation iff it takes no lock away from a caller whose lease has not ended |
| KvLocks.BusyExactlyWhileHeld | packages/plugin-runtime/src/kv.ts:198-207 | a caller is turned away iff another is inside under a lease that has not ended |
| KvLocks.LateLeaveIsHarmless | packages/plugin-runtime/src/kv.ts:217-222 | a late finally leaves a later holder's lock in place |
| KvLocks.UnsafeClearBreaksExclusion | packages/plugin-runtime/src/kv.ts:183-187 | a run with such a `clear` in which two callers hold one lock |
| KvStores.LazyIsExact | packages/plugin-runtime/src/kv.ts:130-157 | for all histories, the lazily purged store answers what the history of writes says, as if entries vanished at their expiry |
| KvStores.WrittenUntilExpiry | packages/plugin-runtime/src/kv.ts:227-239 | what was written is there until the instant at which it expires and not from then on, whatever happens to other keys and whether or not somebody looked |
| KvStores.GoneUntilWritten | packages/plugin-runtime/src/kv.ts:151-182 | what was removed, cleared or never written is not there |
| KvStores.SetLasts | packages/plugin-runtime/src/kv.ts:130-149 | a get after a set answers the value exactly as long as the whole seconds of its time to live last, and for good when there are none |
| KvStores.SetIsListed | packages/plugin-runtime/src/kv.ts:159-174 | a matching key that was set is listed exactly as long |
| KvStores.OthersUnseen | packages/plugin-runtime/src/kv.ts:138-189 | an operation on other keys does not change a key's answer |
| KvStores.StoresAreIsolated | packages/plugin-runtime/src/kv.ts:138-189 | whatever one store sets, deletes or clears, get and exists answers of a store with another sanitized identity are unchanged |
| KvStores.LocksAreIsolated | packages/plugin-runtime/src/kv.ts:183-223 | whatever callers of one store or its `clear` do, the locks of a store with another sanitized identity, who is inside for them and whether they are busy are unchanged |
| KvStores.StoreExcludes | packages/plugin-runtime/src/kv.ts:183-253 | a store's locks exclude each other in every interleaving with all other stores, as long as its own clears are safe |
| KvStores.ClearReachesShadowedStore | packages/plugin-runtime/src/kv.ts:176-182 | an input for which they are changed when one identity lacks an instance |
| KvStores.ListIsOwnKeys | packages/plugin-runtime/src/kv.ts:159-174 | the listed keys are the ascending list of the store's own live matching keys iff no live key of another namespace matches |
| KvStores.ListReportsOthers | packages/plugin-runtime/src/kv.ts:159-174 | an empty store that lists another plugin's storage key |
| KvStores.ReportedByHistory | packages/plugin-runtime/src/kv.ts:159-174 | the reported keys are those that are live by the history and match |
| StringOrder.FirstDifference | packages/plugin-runtime/src/kv.ts:173 | sorted means by the first difference: the smaller character first, and a string that ends before one that goes on |
| KvStores.MemoryPluginKvStore.ReadValue | packages/plugin-runtime/src/kv.ts:227-239 | the stored value exactly while `now` is before its expiry; an expired one is removed |
| KvStores.MemoryPluginKvStore.Get | packages/plugin-runtime/src/kv.ts:130-136 | the value by the history, or invalid key |
| KvStores.MemoryPluginKvStore.Exists | packages/plugin-runtime/src/kv.ts:155-157 | whether the history has a live value |
| KvStores.MemoryPluginKvStore.Set | packages/plugin-runtime/src/kv.ts:138-149 | extends the history by the write; a lifetime below a second means none |
| KvStores.MemoryPluginKvStore.Del | packages/plugin-runtime/src/kv.ts:151-153 | extends the history by the removal; says whether an entry was physically there |
| KvStores.MemoryPluginKvStore.ListKeys | packages/plugin-runtime/src/kv.ts:159-174 | the sorted list of the bare names reported, all of them live |
| KvStores.MemoryPluginKvStore.Clear | packages/plugin-runtime/src/kv.ts:176-189 | extends the history by clearing the segment, counts the removed entries, and clears the store's locks |
| KvStores.MemoryPluginKvStore.EnterLock | packages/plugin-runtime/src/kv.ts:196-213 | performs the protocol's entering step, or reports busy or an invalid key |
| KvStores.MemoryPluginKvStore.LeaveLock | packages/plugin-runtime/src/kv.ts:217-222 | performs the protocol's leaving step |
| Activation.EveryRunKeepsInv | crates/plugin-host/src/activation.rs:82-208 | over all runs: Ready iff active, Unhealthy iff a retry is set, handles belong to Ready plugins, and starts equal failed initializations plus held handles plus shutdowns |
| Activation.NoEarlyRetry | crates/plugin-host/src/activation.rs:94-117 | no start within the backoff after a failed initialization unless the plugin was deactivated between |
| Activation.BackoffExactly | crates/plugin-host/src/activation.rs:94-101 | a plugin that is not Ready is refused for backoff iff less than the backoff has passed since its last failed initialization not followed by a deactivation |
| Activation.RefusedExactlyDuringBackoff | crates/plugin-host/src/activation.rs:94-117 | after a failed initialization, whatever is called meanwhile but a deactivation, the plugin is refused exactly until the backoff is over |
| Activation.DeactivationEndsBackoff | crates/plugin-host/src/activation.rs:144-151 | a plugin that was deactivated is not refused |
| Activation.InsertReplacesNothing | crates/plugin-host/src/activation.rs:119-124 | a new handle never replaces a held one |
| Activation.ActiveHasRuntimeUnlessLost | crates/plugin-host/src/activation.rs:90-92 | a plugin reported active has a handle iff its last runtime event is not a failed shutdown |
| Activation.FailedShutdownLeavesReady | crates/plugin-host/src/activation.rs:144-151 | an input after which a plugin is reported active without a handle |
| Activation.StartUpIsExact | crates/plugin-host/src/activation.rs:128-136 | a start-up that succeeds leaves the listed plugins Ready, reports exactly those that were not, and changes no others |
| Activation.EvictedExactlyWhenUnused | crates/plugin-host/src/activation.rs:154-195 | after any run, counting as use each recorded activity and each activation by a call: eviction leaves a plugin used less than the timeout ago as it is, and deactivates one that was not when shutdowns work |
| Activation.RunUses | crates/plugin-host/src/activation.rs:119-161 | the activity time of a plugin is that of its last use by the calls |
| Activation.EvictionIsExact | crates/plugin-host/src/activation.rs:164-195 | eviction deactivates exactly the idle plugins, in ascending order, up to the first failing shutdown, and leaves all others unchanged |
| Activation.ActivationManager.constructor | crates/plugin-host/src/activation.rs:65-80 | no runtime is held |
| Activation.ActivationManager.EnsureActive | crates/plugin-host/src/activation.rs:83-125 | the result in each case, and exactly what it changes: entry, handle and history |
| Activation.ActivationManager.ActivateStartupPlugins | crates/plugin-host/src/activation.rs:128-136 | activates exactly the startup plugins, ascending, each at its own time; keeps the invariant |
| Activation.ActivationManager.Deactivate | crates/plugin-host/src/activation.rs:144-151 | the handle is gone, the entry inactive and its backoff cleared, or the failed shutdown or unknown plugin is reported and the entries are as they were |
| Activation.ActivationManager.RecordActivity | crates/plugin-host/src/activation.rs:154-161 | the activity time of a registered plugin becomes `now`, and nothing else changes; an unknown one is reported |
| Activation.ActivationManager.EvictIdlePlugins | crates/plugin-host/src/activation.rs:164-195 | the loop evicts exactly the idle plugins, and its final sort and dedup change nothing |
| Activation.ActivationManager.ShutdownRuntime | crates/plugin-host/src/activation.rs:197-208 | the handle is gone even when the shutdown fails |
| Activation.PluginRegistry.FromEntries | crates/plugin-host/src/registry.rs:154-177 | one inactive entry per id with its manifest and path and a closed breaker, the last one winning |
| Activation.PluginRegistry.Status | crates/plugin-host/src/registry.rs:197-201 | a status is reported iff it is that of the registered plugin |
| Activation.PluginRegistry.StartupPluginIds | crates/plugin-host/src/registry.rs:204-210 | the ascending list of the startup plugins |
| Activation.PluginRegistry.PluginIds | crates/plugin-host/src/registry.rs:213-215 | the ascending list of all ids |
| Activation.PluginRegistry.Deactivate | crates/plugin-host/src/registry.rs:218-227 | marks exactly that entry inactive and says whether it exists |
| MethodIds.StepIsBijective | packages/plugin-codegen/src/method-ids.ts:17-18 | each step of the hash is inverted by xor after multiplying with the inverse of the prime |
| MethodIds.KnownHashes | packages/plugin-codegen/src/method-ids.ts:13-26 | the hashes that the FNV draft gives for the empty string and for one letter |
| MethodIds.StepInNumbers | packages/plugin-codegen/src/method-ids.ts:17-18 | a step in the numbers of the draft |
| MethodIds.XorBits | packages/plugin-codegen/src/method-ids.ts:17 | each bit of the exclusive or |
| MethodIds.CharactersSeparate | packages/plugin-codegen/src/method-ids.ts:17-18 | different characters take one hash to different hashes |
| MethodIds.SuffixSeparates | packages/plugin-codegen/src/method-ids.ts:16-19 | a common suffix neither merges nor separates hashes |
| MethodIds.OneDifferenceSeparates | packages/plugin-codegen/src/method-ids.ts:13-19 | names that differ in exactly one character have different hashes |
| MethodIds.OneDifferenceCollidesExactly | packages/plugin-codegen/src/method-ids.ts:13-26 | their ids are equal iff the two hashes are 0 and 1 |
| MethodIds.IdsCollideExactly | packages/plugin-codegen/src/method-ids.ts:21-25 | ids are never 0, and are equal iff the hashes are or both are at most 1 |
| MethodIds.HashParity | packages/plugin-codegen/src/method-ids.ts:13-19 | the lowest bit of the hash is the parity of what was hashed |
| MethodIds.SignsDoNotMatter | packages/plugin-codegen/src/method-ids.ts:17-18 | the signed steps of ECMAScript compute the same residue |
| MethodIds.StableMethodId | packages/plugin-codegen/src/method-ids.ts:13-26 | the loop over code units computes the id |
| MethodIds.StableMethodIdOfBytes | crates/plugin-host/src/dynamic.rs:33-42 | the loop over bytes computes the id |
| MethodIds.EncodingsAgreeExactly | crates/plugin-host/src/dynamic.rs:32-38 | UTF-8 and UTF-16 give the same numbers to hash iff the name is ASCII |
| MethodIds.Utf8Recovers | crates/plugin-host/src/dynamic.rs:36 | each character is recovered from its UTF-8 bytes |
| MethodIds.Utf16Recovers | packages/plugin-codegen/src/method-ids.ts:16-17 | each character is recovered from its UTF-16 units |
| MethodIds.SameIdForAscii | crates/plugin-host/src/dynamic.rs:32-42 | both programs give an ASCII name the same id |
| MethodIds.NotSameForEveryName | crates/plugin-host/src/dynamic.rs:32-42 | a non-ASCII name for which they do not |
| MethodIds.AssertUniqueMethodIds | packages/plugin-codegen/src/method-ids.ts:28-47 | accepts exactly the lists with pairwise different ids; otherwise reports the first duplicate name or collision |
| MethodIds.ClashIsUnique | packages/plugin-codegen/src/method-ids.ts:32-46 | there is only one such report |
| MethodIds.AcceptedNamesDispatch | crates/plugin-host/src/dynamic.rs:12-19 | for accepted ASCII names the host's id of one equals the generator's id of another iff they are the same entry |
| MethodIds.CanonicalNamesAreUnique | packages/plugin-codegen/src/method-ids.ts:5-11 | a canonical name determines package, service and method when services have no dot and methods no slash |
| MethodIds.CanonicalNameIsSpelled | packages/plugin-codegen/src/method-ids.ts:5-11 | the canonical name of one method, spelled out |
| Crud.CacheIsCoherent | examples/crud-plugin/src/index.ts:59-187 | for all interleavings on one database, each cached note equals its row |
| Crud.SegmentIsPlain | examples/crud-plugin/src/index.ts:59-154 | up to its first await a handler answers and changes the database as without a cache |
| Crud.AnswersAreUncached | examples/crud-plugin/src/index.ts:59-187 | for all interleavings, every call is answered as by a plugin without a cache that handles the calls one by one; `cacheHits` counts the gets of notes already seen |
| Crud.AnswersTellTheTable | examples/crud-plugin/src/index.ts:59-154 | the answer to a create, get or update is the note's row in the table that the call leaves, or that it is missing; a delete leaves no row |
| Crud.NothingBeforeInit | examples/crud-plugin/src/index.ts:162-167 | before Init every other call is refused |
| Crud.RowsAreTheTable | examples/crud-plugin/src/index.ts:135-154 | a list holds each row once, in ascending order of the ids |
| Crud.VersionCountsUpdates | examples/crud-plugin/src/index.ts:59-117 | a note's version is 1 plus the updates since its last create, its text that of the last update |
| Crud.RowsAreRevised | examples/crud-plugin/src/index.ts:96-117 | over calls that neither create nor delete a note, its row exists iff it did, with one version more per update |
| Crud.DeletedStaysDeleted | examples/crud-plugin/src/index.ts:119-133 | a deleted note has no row until it is created again |
| Crud.MarksNameTheirCalls | examples/crud-plugin/src/index.ts:71-123 | `last_note_id` is that of a create or update, `last_deleted_id` that of a delete |
| Crud.MutationCount | examples/crud-plugin/src/index.ts:157-160 | for all interleavings `mutation_count` is at most its first value plus the successful mutations, with equality iff no bump wrote back a replaced count |
| Crud.CountsFromNothing | examples/crud-plugin/src/index.ts:157-160 | the same from a store without a count |
| Crud.LostBumps | examples/crud-plugin/src/index.ts:157-160 | the same about every log of reads and writes |
| Crud.SerialRunsCount | examples/crud-plugin/src/index.ts:157-160 | when handlers run one after the other every successful mutation is counted |
| Crud.RacingBumpsLoseOne | examples/crud-plugin/src/index.ts:157-160 | two bumps that both read before either writes add 1 between them |
| Crud.TwoBumpsCanRace | examples/crud-plugin/src/index.ts:59-74 | a run that gets two handlers there |
| Crud.ReopeningIsSafeExactly | examples/crud-plugin/src/index.ts:23-187 | after an Init with another path, all later calls on that database, updates and lists included, are answered as without a cache iff each cached note is a row of it |
| Crud.StaleAfterReopening | examples/crud-plugin/src/index.ts:38-81 | a note of one database served after another was opened |
| Crud.CrudPlugin.Initialize | examples/crud-plugin/src/index.ts:23-57 | an empty path is refused, any other is opened; the cache is kept |
| Crud.CrudPlugin.Create | examples/crud-plugin/src/index.ts:59-71 | writes row and cached note with version 1, then waits for the store with that note as its answer; refused before Init |
| Crud.CrudPlugin.Get | examples/crud-plugin/src/index.ts:76-94 | the cached note, counted as a hit, or else the row, now cached; missing without a row |
| Crud.CrudPlugin.Update | examples/crud-plugin/src/index.ts:96-114 | one version more than the cached note or the row, in both; missing without a row |
| Crud.CrudPlugin.Delete | examples/crud-plugin/src/index.ts:119-123 | removes row and cached note, then waits for the store |
| Crud.CrudPlugin.List | examples/crud-plugin/src/index.ts:135-154 | the handler: all rows by ascending id, all of them cached |
| Crud.CrudPlugin.LoadNote | examples/crud-plugin/src/index.ts:169-187 | the cached note or the row, now cached, counting a hit only on request |
| Crud.CrudPlugin.KvMarks | examples/crud-plugin/src/index.ts:71-123 | the await that sets `last_note_id` or `last_deleted_id`; the count is read next |
| Crud.CrudPlugin.KvReadsCount | examples/crud-plugin/src/index.ts:158 | the await that reads the count and remembers it |
| Crud.CrudPlugin.KvWritesCount | examples/crud-plugin/src/index.ts:159 | the await that writes the count; the handler then answers |
| Crud.CrudPlugin.KvFails | examples/crud-plugin/src/index.ts:157-160 | a failing store call fails the handler and changes no table or cache |
| Crud.SelectRows | examples/crud-plugin/src/index.ts:137-139 | the rows in ascending order of their ids |

## Left out

Not modelled:

- `RedisPluginKvStore`: cursors, scripts and the server's own semantics; the in-memory store carries the protocol.
- Worker pool, worker threads, processes, sockets as operating-system objects, bootstrap imports.
- `RuntimeSupervisor`: counters over the same breaker.
- `PluginFrameCodec`: it wraps a library codec that is not part of this model; the hand-written framing is.
- pluginctl, templates, code generation other than method ids, manifests on disk.
- Metrics, logs, tracing, request validation, Init gating in the dispatcher.
- Poisoned locks, panicking transports, and a scheduler worker that has died.
- JSON round trips of stored values and decoding of typed payloads: both are opaque here.

Simplifications:

- Schedulers.ProbeEndsSoon: a timeout may fire at any moment at which the caller has no reply; the length of the timeout is not modelled, which admits more runs than the code has.
- Schedulers.ScheduledPluginHost.Enqueue: the worker does not die, so the queue is never disconnected; with depth 0 an idle worker counts as waiting to receive.
- Clients.PluginHost.Invoke: request ids below 2 to the 64; wrap-around is not modelled.
- Envelopes.EnvelopeRoundTrip: for encodings shorter than 2 to the 64 bytes, since a nested length is a u64; strings are their UTF-8 bytes and are not checked to be valid.
- Wire.RecordRoundTrip: groups (wire types 3 and 4) are treated as malformed when decoding.
- Sessions.RepliesEcho: the texts of the runtime's own complaints are parameters; timeouts and thrown errors are faults chosen by the environment.
- Sessions.InvokeOverSocket: for requests and replies whose encodings are shorter than 2 to the 32 bytes, hosts that send the next request after each reply (`UnixSocketTransport` does), and connections on which no shutdown was sent.
- Framing.StuckOnBadFrame: what a decoder rejects is a parameter; the rejected promise of the `data` handler, which may end the process, is not modelled; the connection is only shown to stay stuck.
- WarmCaches.Inclusion: without memory pressure, which may drop more from the larger cache than from the smaller one.
- WarmCaches.WarmCache.Set: `maxEntries` is a natural number, keys and values are not `undefined`, clock readings are integers.
- KvStores.MemoryPluginKvStore.Del: its answer and the count of `clear` depend on whether an expired entry had been purged; they are stated as the code computes them, not by the history.
- KvStores.StoresAreIsolated: for one namespace policy; identities that are equal after sanitizing share a store, and different root prefixes may nest.
- KvLocks.MutualExclusion: tokens are fresh, and one clock for the whole backend does not go back.
- KvStores.MemoryPluginKvStore.ListKeys: one clock reading per operation; keys are compared by code unit, and lifetimes that are not numbers are not modelled.
- MethodIds.SameIdForAscii: for other names the hashed numbers differ (`MethodIds.EncodingsAgreeExactly`); ids could then still agree by accident, and which names these are is not characterised.
- Crud.CacheIsCoherent: one module instance and no outside writer of the table; the case of several databases is covered by `Crud.ReopeningIsSafeExactly`.
- Crud.CrudPlugin.List: strings are compared by their bytes; database errors other than a missing database are not modelled.
