# A verified model of the Hop endpoint for Python

`hop_endpoint` carries opaque packets between a libhop node and the outside world. This project models
the three parts of it that hold logic of their own and proves what they promise.

**The byte streams.** `Bytes`, `Net`, `Frames`, `Messages`, `Links` and `Http` model the WebSocket bearer
from the socket up: a socket whose chunking and timing an adversary picks, the buffered exact reader, the
frame codec of sections 5.2 to 5.5 of RFC 6455 with the code's own departures from it, the reassembly of
fragmented messages under the 1 MiB cap, the link loop, and the HTTP head reader that hands its surplus
bytes to the link. `Tcp` models the length-prefixed TCP bearer, `Seam` what a bearer tells the endpoint,
and `Bearers` puts all three bearers side by side, over all the batches a link is ever
given. Each imperative reader is proved against a pure parse function, and each parse function against a
grammar of what may be on the wire.

**The endpoint.** `Endpoint` gives the shared state and its critical sections as functions and builds from
them a step machine over any number of threads, each with its own stack of what it is in the middle of.
`EndpointRuns` proves the safety of every run: node ownership, teardown hooks and request waiters; and
`EndpointProgress` what its threads can always do, up to a response reaching its request.
`HopEndpoint` is the object itself: each method performs one step, and `Perform` takes any step, so the
object never leaves the reachable states. `Pump` is the routing of a drained batch, and `LinkTable` a
second step machine: links drawing numbers, registering and going down while the pump routes.

**Admission and shutdown.** `Admission`, `AdmissionRuns` and `AdmissionShutdown` model the accept loop,
the four handshake workers, the link threads and the close of the WSS server; `SocketLease` is the lease
object; `Listener` is the TCP listener.

## How to read it

- A socket (`Net.Socket`) holds the bytes it will still yield. How `Recv` cuts them up, how long each
  receive waits, and whether it runs into its timeout are nondeterministic, so a contract that mentions
  none of them holds for every chunking and timing. The clock runs only inside `Recv` and never past the
  timeout set. A reset or a failed send is the stream ending at that byte.
- Every step machine takes its steps at lock boundaries. `Enabled` says when a thread can take a step,
  `Apply` what the step does, and `Reachable` holds of the states some interleaving leads to. `Runs` has
  what all of the machines share: runs, reachability and invariants.
- Libhop is opaque. Only native calls that take a sink can call back into the endpoint before they
  return, and a request id it hands out is new; `EndpointRuns.ReuseStrandsIff` shows what the second
  assumption is needed for: it drops it and says exactly which steps then lose a waiter.

## Where a promise fails

- The head reader does not read every head of at most 16 KiB: one that ends past byte 12289 can be
  swallowed together with bytes after it and be refused. `Http.EveryRunReadsIff` and `Http.SomeRunReadsIff`
  say exactly when a head is read under every chunking and under some chunking, and
  `Http.RefusedUnderOneChunking` gives a head that one chunking reads and another refuses.
- `close_server` does not close every admitted socket: one whose descriptor wrap_socket has already taken
  out of the raw socket object stays open and can become a running link. `AdmissionShutdown.CloseCanMissALink`
  is such a run. `SweptIsGoneIff` says when closing one socket closes its connection, `CloseDisposesIff`
  that over a whole run close fails on exactly the connections it slipped past and never closes them
  later, and `CloseLeavesNothing` that nothing else is left open.
- The socket bearers do not always agree. A packet over 1 MiB ends its batch over WSS, where the encoder
  raises and the pump goes on with the next batch; over TCP it is framed, and the receiver drops the link
  at its length. `Bearers.BearersCanPart` is such a pair of batches, and `BearersAgreeIff` says exactly
  when the two deliver the same, and when either delivers what was sent.
- The two link counters can meet: `LinkTable.EntriesSafeIff` says exactly when a link that is up can lose
  its entry in the link table to another, and `StepOverwritesIff` by which step.

## Model

| member | source | states |
|---|---|---|
| Bytes.UnpackPacked | hop_endpoint/wss_bearer.py:73-76 | a length packed big-endian into enough bytes unpacks to itself, for every width |
| Bytes.PackUnpacked | hop_endpoint/wss_bearer.py:92-95 | every byte string is the big-endian packing of the number it unpacks to |
| Bytes.UnmaskMasked | hop_endpoint/wss_bearer.py:102-103 | masking twice under one key is the identity |
| Bytes.MaskedAt | hop_endpoint/wss_bearer.py:80 | a masked byte is the byte of the text XOR the byte of the key whose turn it is |
| Net.Conn.RecvExact | hop_endpoint/wss_bearer.py:47-60 | hands out exactly the first n bytes of buffer followed by socket, or none; on success never takes a byte past the n-th from the socket and leaves in the buffer a suffix of what was there; never runs past its deadline, and gives up for time only when the deadline has been reached |
| Net.Conn.BeginRead | hop_endpoint/wss_bearer.py:44-45 | starts one 15-second deadline |
| Frames.EncodeFrame | hop_endpoint/wss_bearer.py:63-81 | the encoder built by appending is the grammar's wire form of one final binary frame in the shortest length form, admissible to any reader; packets over 1 MiB are refused |
| Frames.PacketBytes | hop_endpoint/wss_bearer.py:63-81 | the bytes of an encoded packet, spelled out: 0x82, the length in two, four or ten bytes of header, the key, and the text under it |
| Frames.PacketFrameIsShortest | hop_endpoint/wss_bearer.py:69-76 | no other length form carries the packet in fewer bytes |
| Frames.AdmissibleParses | hop_endpoint/wss_bearer.py:84-104 | an admissible frame, in any length form, masked or not, is read back exactly whatever bytes follow |
| Frames.ParsedIsAdmissible | hop_endpoint/wss_bearer.py:84-104 | whatever the reader takes is the wire form of an admissible frame, which it names |
| Frames.FrameGrammar | hop_endpoint/wss_bearer.py:84-104 | the reader succeeds on exactly the frame grammar, with exactly its values and byte count |
| Frames.FrameBytes | hop_endpoint/wss_bearer.py:84-104 | which bits and bytes the reader takes for FIN, opcode, length, key and text, spelled out without the grammar |
| Frames.InadmissibleRefused | hop_endpoint/wss_bearer.py:96-99 | an oversize frame or a malformed control frame is refused with the right error, only its header consumed |
| Frames.RefusedIffInadmissible | hop_endpoint/wss_bearer.py:96-99 | a header is refused exactly when the frame it announces is inadmissible, before any of its body matters |
| Frames.FrameVerdictStands | hop_endpoint/wss_bearer.py:84-104 | a frame or a refusal, once read, is unchanged by later bytes |
| Frames.ReadFramePart | hop_endpoint/wss_bearer.py:84-104 | the reader over the socket returns the parse of the stream and consumes exactly its bytes, for every chunking |
| Messages.FragmentsParse | hop_endpoint/wss_bearer.py:124-132 | a tail of continuation frames within what the cap leaves is joined onto what came before |
| Messages.UnitParses | hop_endpoint/wss_bearer.py:113-132 | however a packet is fragmented, masked and length-coded, the reader returns its whole text and consumes exactly its bytes |
| Messages.MessageGrammar | hop_endpoint/wss_bearer.py:113-132 | the message reader succeeds on exactly the grammar of whole packets and control frames |
| Messages.MessageVerdictStands | hop_endpoint/wss_bearer.py:113-132 | a message or an error, once read, is unchanged by later bytes |
| Messages.ReadRest | hop_endpoint/wss_bearer.py:124-132 | the reassembly loop computes that parse, its running total never above 1 MiB |
| Messages.ReadMessage | hop_endpoint/wss_bearer.py:113-132 | the reader over the socket returns the parse of the stream, waiting at most 15 seconds in all, however many fragments and chunks arrive, and giving up for time only after all 15 |
| Links.SessionDelivered | hop_endpoint/wss_bearer.py:142-151 | a session of packets with control frames between them delivers exactly those packets in order, then whatever the rest of the stream delivers |
| Links.DeliveredGrammar | hop_endpoint/wss_bearer.py:142-151 | a stream delivers a list exactly when it is a session of those packets up to where the loop stops: a close frame, an error or a cut |
| Links.ShortFrameDelivers | hop_endpoint/wss_bearer.py:113-151 | what each first byte makes of a short frame: 0x82 delivers, 0x89 to 0x8F are skipped, everything else ends the link |
| Links.TwoFragmentsDeliver | hop_endpoint/wss_bearer.py:124-132 | 0x02 opens a packet that 0x80 completes |
| Links.CloseEndsSession | hop_endpoint/wss_bearer.py:148-149 | nothing after a close frame is delivered |
| Links.CutDeliversPrefix | hop_endpoint/wss_bearer.py:142-159 | any stream cut at any byte delivers a prefix of its packets |
| Links.CutSession | hop_endpoint/wss_bearer.py:142-159 | a session cut at any byte delivers exactly the packets that arrived whole |
| Links.RunLink | hop_endpoint/wss_bearer.py:142-159 | the link comes up, delivers what its stream spells whatever the chunking and the handshake's surplus, goes down once and closes its socket; only a deadline can shorten the list, and only once 15 seconds have passed |
| Http.FindDelimiter | hop_endpoint/wss_bearer.py:165-176 | the first blank line, or none |
| Http.DelimiterInPrefix | hop_endpoint/wss_bearer.py:165-176 | the blank line found in what has been read is the stream's first |
| Http.EveryRunReadsIff | hop_endpoint/wss_bearer.py:162-177 | a head is read under every chunking exactly when it ends by byte 12289 or the peer sends at most 16384 bytes |
| Http.SomeRunReadsIff | hop_endpoint/wss_bearer.py:162-177 | a head is read under some chunking exactly when it ends by byte 16384 |
| Http.ReadHttpBytes | hop_endpoint/wss_bearer.py:162-177 | head, the bytes 13 10 13 10, surplus and unread socket are the stream in order; at most 16385 bytes are taken; it gives up for time exactly when 5 seconds have passed |
| Http.RefusedUnderOneChunking | hop_endpoint/wss_bearer.py:170-175 | a head of 12290 bytes that one chunking reads and another refuses |
| Http.RunUpgraded | hop_endpoint/wss_bearer.py:226-259 | the link delivers what the bytes after the first blank line spell, wherever the handshake stopped reading; deadlines aside, a valid Upgrade whose head ends by byte 12289, or whose peer sends at most 16384 bytes, always gets its link, and one that ends past byte 16384 never does |
| Tcp.FramedDelivered | hop_endpoint/tcp_bearer.py:17-39 | of a batch the packets before the first oversize one come back exactly; then the link is dropped, if that packet was framed, or delivers what it carries next |
| Tcp.FramedBytes | hop_endpoint/tcp_bearer.py:17-21 | the bytes of a framed packet, spelled out: its length in four, most significant first, and the packet |
| Tcp.FrontBytes | hop_endpoint/tcp_bearer.py:32-37 | what the receiver makes of the front of its buffer, in terms of those bytes |
| Tcp.ReassembledGrammar | hop_endpoint/tcp_bearer.py:24-39 | a stream delivers a list exactly when it is the framing of that list, no packet over 1 MiB, followed by bytes with no whole packet at the front |
| Tcp.CutReassemblesPrefix | hop_endpoint/tcp_bearer.py:24-39 | any stream cut at any byte delivers a prefix of its packets |
| Tcp.WaitingIsShort | hop_endpoint/tcp_bearer.py:32-37 | what stays buffered between receives is at most 1 MiB and 3 bytes |
| Tcp.FittingIff | hop_endpoint/tcp_bearer.py:34-35 | the packets before the first oversize one are all of them exactly when none is oversize |
| Tcp.SendFramed | hop_endpoint/tcp_bearer.py:17-21 | writes the framed packet, or raises and writes nothing when four bytes cannot hold its length |
| Tcp.Drain | hop_endpoint/tcp_bearer.py:32-39 | the inner loop moves whole frames from buffer to endpoint and changes nothing of what the stream spells |
| Tcp.RecvLoop | hop_endpoint/tcp_bearer.py:24-47 | delivers the parse of the whole stream for every chunking, then takes the link down once and closes |
| Bearers.WssBatchesDelivered | hop_endpoint/wss_bearer.py:63-159 | encoding batch after batch and running the link on it gives, of each batch, the packets before its first oversize one, under any keys |
| Bearers.TcpBatchesDelivered | hop_endpoint/tcp_bearer.py:17-39 | framing batch after batch and reassembling gives the same of each batch, until one whose first oversize packet four bytes can announce, and nothing after it |
| Bearers.UniquelyDecodable | hop_endpoint/wss_bearer.py:63-81 | two lists of packets with the same wire bytes are the same list, whatever the masks |
| Bearers.SendBatchesOverWss | hop_endpoint/endpoint.py:286-292 | each batch is encoded packet by packet until one raises, and the pump goes on with the next batch |
| Bearers.OverInProcess | hop_endpoint/__init__.py:8-12 | the in-process bearer hands every packet of every batch straight to the other endpoint |
| Bearers.OverWss | hop_endpoint/wss_bearer.py:63-159 | sender and receiver code composed over all batches: the link delivers that, for every split between handshake and socket; a deadline only shortens the list |
| Bearers.OverTcp | hop_endpoint/tcp_bearer.py:17-47 | sender and receiver code composed over TCP, over all batches |
| Bearers.BearersAgreeIff | hop_endpoint/endpoint.py:286-307 | over all batches TCP delivers a prefix of what WSS delivers; they deliver the same exactly when no batch after one that trips TCP has anything to deliver; either delivers what was sent, as in process, exactly when no packet is over 1 MiB |
| Bearers.BearersCanPart | hop_endpoint/tcp_bearer.py:34-35 | two batches of which WSS delivers the second and TCP neither |
| EndpointRuns.LockStep | hop_endpoint/endpoint.py:148-176 | every step keeps: the lock is held exactly while native calls are on its owner's stack, and the depth counter counts them |
| EndpointRuns.FreeStep | hop_endpoint/endpoint.py:148-162 | every step keeps: freed at most once, only closed and idle, and until then somebody is left who will free it |
| EndpointRuns.HookStep | hop_endpoint/endpoint.py:183-190 | every step conserves hooks: each one registered is listed, taken on by one thread, or has run, once |
| EndpointRuns.MailStep | hop_endpoint/endpoint.py:211-235 | every step keeps the waiter invariant |
| EndpointRuns.SendStep | hop_endpoint/endpoint.py:217-222 | every step keeps: nothing joins `pending` once the endpoint is closed |
| EndpointRuns.ReachableIsSafe | hop_endpoint/endpoint.py:148-351 | all of these hold in every state of every interleaving |
| EndpointRuns.NodeFreedOnce | hop_endpoint/endpoint.py:148-162 | the node is freed at most once, never under a native call, and exactly once when close and all native calls are over |
| EndpointRuns.NoCallAfterClose | hop_endpoint/endpoint.py:164-176 | once marked closed the endpoint stays closed and no thread starts a native call |
| EndpointRuns.FreeingStep | hop_endpoint/endpoint.py:346-351 | exactly which steps free the node: an idle close finishing, or the last native call of a closed endpoint returning |
| EndpointRuns.HooksRunOnce | hop_endpoint/endpoint.py:328-344 | no hook runs twice, and each has run once when close and registrations have finished |
| EndpointRuns.WaiterInOnePlace | hop_endpoint/endpoint.py:317-339 | an un-timed-out request is pending, with the pump, or signalled, exactly one of them; its holder is written at most once, with "closed" or a polled response to its own id; after close only the pump's slot holds an unsignalled one |
| EndpointRuns.HolderIsFinal | hop_endpoint/endpoint.py:320-326 | a written holder never changes again, though responses may be polled again |
| EndpointRuns.ReuseStrandsIff | hop_endpoint/endpoint.py:217-226 | in every run in which request ids may be handed out again, a step strands a waiter exactly when it registers another under the id that one is pending under, or withdraws another request with that id |
| EndpointRuns.StrandedForGood | hop_endpoint/endpoint.py:211-235 | a stranded waiter stays so until it gives up |
| EndpointRuns.FreshStrandsNobody | hop_endpoint/endpoint.py:211-235 | with fresh ids nobody is ever stranded |
| EndpointProgress.NoDeadlock | hop_endpoint/endpoint.py:148-351 | in every reachable state each thread has a step it can take, or waits for the lock while the thread that holds it has one |
| EndpointProgress.NothingBarred | hop_endpoint/endpoint.py:148-351 | nothing the source lets a thread do is barred: calls, closes and registrations of user code, inside sinks and hooks too, whichever way a wait ends, and the pump's next move |
| EndpointProgress.CanFinish | hop_endpoint/endpoint.py:148-351 | from any reachable state a thread the lock is free for can get out of everything it is in the middle of, however deep |
| EndpointProgress.EntryLeavesIff | hop_endpoint/endpoint.py:217-339 | exactly how an entry leaves `pending`: woken by close, withdrawn by its own request, or taken by the pump for a response to its id |
| EndpointProgress.PumpAnswers | hop_endpoint/endpoint.py:317-326 | left to itself the pump works through its batch: every pending request gets the first response to its id and is signalled, the others stay as they were |
| EndpointProgress.PolledIsAnswered | hop_endpoint/endpoint.py:314-326 | a pending request whose response the pump polls can be answered with it |
| EndpointProgress.PendingHasRequest | hop_endpoint/endpoint.py:211-235 | while an entry is in `pending`, or a waiter has no outcome, its request has not returned |
| HopEndpoint.HopEndpoint.Perform | hop_endpoint/endpoint.py:148-351 | the object's code takes any step of any thread just as the step machine does, so it is always in a reachable state and every property of those holds of it |
| HopEndpoint.HopEndpoint.BeginCall | hop_endpoint/endpoint.py:164-176 | the way into a native call: refused with the lock let go when closed, else lock and counter go up |
| HopEndpoint.HopEndpoint.EndCall | hop_endpoint/endpoint.py:152-155 | the way out, freeing the node when the last call leaves a closed endpoint |
| HopEndpoint.HopEndpoint.RegisterCloser | hop_endpoint/endpoint.py:183-190 | a hook just registered is in exactly one place, once: in the list of a close to come, or, the endpoint being closed, with the caller who is to run it; it has not run |
| HopEndpoint.HopEndpoint.WakePending | hop_endpoint/endpoint.py:336-338 | the loop over `pending` writes "closed" to exactly the pending holders and sets their events |
| HopEndpoint.HopEndpoint.CloseMark | hop_endpoint/endpoint.py:328-339 | the first section of close marks, takes the hooks and wakes every pending waiter, and does nothing the second time |
| HopEndpoint.HopEndpoint.RunHooks | hop_endpoint/endpoint.py:340-344 | every hook taken runs once although others raise, and nothing else changes |
| HopEndpoint.HopEndpoint.Close | hop_endpoint/endpoint.py:328-351 | an uninterrupted close runs every hook once, wakes every waiter, and frees the node unless called from inside a native call; a second one changes nothing |
| Pump.EachLinkItsOwn | hop_endpoint/endpoint.py:304-307 | each registered link's send function is given exactly that link's packets, in order |
| Pump.Route | hop_endpoint/endpoint.py:304-307 | the routing loop makes exactly those calls, up to the first send that raises |
| LinkTable.ReachableIsSafe | hop_endpoint/endpoint.py:267-282 | in every interleaving every entry of the link table was registered under its own number; while the endpoint is open each is of a link that is up; and while the counters are apart every link that is up has its entry |
| LinkTable.EntriesSafeIff | hop_endpoint/tcp_bearer.py:13 | with these many links drawn, every link that is up keeps its entry in every interleaving exactly when at most 20000 of them are TCP links or none is a WSS link |
| LinkTable.StepOverwritesIff | hop_endpoint/endpoint.py:267-272 | a step takes an entry from a link that is up exactly when it registers another link under the same number |
| LinkTable.EachLinkServed | hop_endpoint/endpoint.py:304-307 | in every reachable state with the counters apart a batch reaches each link that is up whole, in order, and nothing else reaches it |
| LinkTable.RouteSendsIff | hop_endpoint/endpoint.py:277-307 | while the endpoint is open a packet reaches the one link that is up under its number, is dropped if there is none, and never reaches a link that is not up |
| LinkTable.CloseFreezes | hop_endpoint/endpoint.py:170-176 | after close no link comes up and no entry is made or taken out |
| LinkTable.AccountStep | hop_endpoint/endpoint.py:304-307 | what a link that is up has been given, with what the batch in hand holds for it, changes in one step only when a batch is collected, by its packets, or when a send raises and the rest of the batch is dropped |
| LinkTable.AccountRun | hop_endpoint/endpoint.py:267-307 | along any stretch of any run in which a link stays up, the counters are apart and no send raises, its send function is given exactly its packets of the batches collected, in order, though other links register and go down in mid-batch |
| AdmissionRuns.OwnerStepAccept | hop_endpoint/wss_bearer.py:318-336 | the accept loop keeps: every unreleased lease has one owner |
| AdmissionRuns.OwnerStepWorker | hop_endpoint/wss_bearer.py:293-313 | a worker keeps it, through taking, transferring and releasing |
| AdmissionRuns.OwnerStepLink | hop_endpoint/wss_bearer.py:252-259 | a link thread keeps it |
| AdmissionRuns.PermitStepAccept | hop_endpoint/wss_bearer.py:324-336 | the accept loop conserves permits |
| AdmissionRuns.PermitStepWorker | hop_endpoint/wss_bearer.py:309-312 | a worker conserves permits |
| AdmissionRuns.PermitStepLink | hop_endpoint/wss_bearer.py:252-256 | a link thread conserves permits |
| AdmissionShutdown.ReachableIsSafe | hop_endpoint/wss_bearer.py:262-339 | every invariant holds in every state of every interleaving |
| AdmissionShutdown.PermitsConserved | hop_endpoint/wss_bearer.py:211-217 | free permits, unreleased leases and permits in flight are always 64, so at most 64 leases are live |
| AdmissionShutdown.AdmittedIff | hop_endpoint/wss_bearer.py:324-327 | a connection is turned away at the door exactly when all 64 permits are behind leases or in flight; otherwise it takes one |
| AdmissionShutdown.AcceptLoopIff | hop_endpoint/wss_bearer.py:318-336 | exactly when an admitted connection is queued, when it is turned away, and when the accept loop ends |
| AdmissionShutdown.WorkerLoopIff | hop_endpoint/wss_bearer.py:293-313 | a worker takes the connection queued longest, and leaves only when the server is closing and nothing is queued, or when an exception it does not catch ends it |
| AdmissionShutdown.ClosedIff | hop_endpoint/wss_bearer.py:219-336 | exactly which steps close an open connection |
| AdmissionShutdown.NeverOverReleased | hop_endpoint/wss_bearer.py:211-217 | the bounded semaphore is never released past its bound |
| AdmissionShutdown.ReleaseTwice | hop_endpoint/wss_bearer.py:211-215 | releasing a lease again changes nothing |
| AdmissionShutdown.QueueHasRoom | hop_endpoint/wss_bearer.py:332-336 | the queue has room whenever the accept loop puts, so the queue.Full branch is dead |
| AdmissionShutdown.OneOwner | hop_endpoint/wss_bearer.py:293-336 | every unreleased lease is held by exactly one of accept loop, queue, workers and links |
| AdmissionShutdown.StepsFindWhatTheyNeed | hop_endpoint/wss_bearer.py:205-336 | no thread is ever stuck: whichever line it stands at, its step is enabled, and no lease or descriptor it wants is missing |
| AdmissionShutdown.ActiveIsLive | hop_endpoint/wss_bearer.py:195-217 | the active set is exactly the sockets of the unreleased leases |
| AdmissionShutdown.CloseLeavesNothing | hop_endpoint/wss_bearer.py:275-289 | after close every connection ever accepted is closed, still with an accept loop that will close it, or missed |
| AdmissionShutdown.SweptIsGoneIff | hop_endpoint/wss_bearer.py:283-289 | closing one socket of the snapshot closes the connection exactly when the descriptor is still in the object being closed |
| AdmissionShutdown.MissIsFinal | hop_endpoint/wss_bearer.py:283-289 | neither socket of a missed connection is left to sweep, and no further step of close touches its descriptor |
| AdmissionShutdown.MissedIff | hop_endpoint/wss_bearer.py:275-289 | along every run the missed connections are those whose raw socket close closed after wrap_socket took the descriptor |
| AdmissionShutdown.CloseDisposesIff | hop_endpoint/wss_bearer.py:275-289 | over every run in which close finishes, it leaves a connection of its snapshot closed exactly when it slipped past none of its sockets, and no step of it ever closes one it slipped past |
| AdmissionShutdown.AcceptClosesWhatItRefuses | hop_endpoint/wss_bearer.py:324-336 | a connection refused a permit or caught by the re-check is closed on the spot |
| AdmissionShutdown.CloseCanMissALink | hop_endpoint/wss_bearer.py:275-306 | a run after whose close a link is up on an open connection |
| SocketLease.SocketLease.constructor | hop_endpoint/wss_bearer.py:196-203 | a new lease names its raw socket and puts it in the active set |
| SocketLease.SocketLease.Replace | hop_endpoint/wss_bearer.py:205-209 | the lease and the active set move to the TLS socket together |
| SocketLease.SocketLease.Release | hop_endpoint/wss_bearer.py:211-217 | the first release gives the permit back, a later one changes nothing |
| Listener.StepIsSafe | hop_endpoint/tcp_bearer.py:57-100 | every step keeps: each accepted socket is closed, in the set, or just accepted |
| Listener.CloseAllLeavesNothing | hop_endpoint/tcp_bearer.py:61-74 | after close_all every socket ever accepted is closed, save one between accept() and its check |
| Listener.CheckClosesLateSocket | hop_endpoint/tcp_bearer.py:84-88 | the check closes that one |
| Listener.JoinsIff | hop_endpoint/tcp_bearer.py:84-88 | a socket joins the set exactly at its check, exactly if the listener is not closing; the accept loop ends only when accept() or the start of a thread fails |
| Listener.EachSocketReceives | hop_endpoint/tcp_bearer.py:88-98 | every socket in the set has a receive thread, save the accept loop's current one or one whose thread could not be started |
| Listener.ClosedIff | hop_endpoint/tcp_bearer.py:41-86 | exactly which steps close an open socket |
| Listener.LeavesSetClosed | hop_endpoint/tcp_bearer.py:91-96 | along every run a socket leaves the set only after, at an earlier step, its own receive loop ended and closed it |

## Left out

- libhop itself, and `hop_endpoint/_ffi.py` which forwards to it: native calls are opaque steps.
- TLS, SHA-1, base64, JSON, URLs, certificates, `hop_endpoint/discovery.py` and `hop_endpoint/dev_tls.py`: thin use of libraries.
- The routing and header parsing of an HTTP request: whether a request is a valid Upgrade is an input of `Http.RunUpgraded`, and whether a handshake transfers its socket is a free choice of a worker's step.
- `_Reply`, the iteration of `HopResponse`, length checks of arguments, the relay and cluster calls: single-branch members.
- Liveness, scheduling and join timeouts: end states are stated for runs that have got there. That all permits come back after close is not claimed, since workers may exit before a late enqueue.
- Exceptions that are not an `Exception` (a keyboard interrupt, say) inside a teardown hook end close early; they are not steps of the model.
- A send that fails half way: the stream counts as cut at that byte, and nothing is sent on it afterwards.
- The handler table is not modelled. The pump reads the link table under no lock; `LinkTable` interleaves its reads, packet by packet, with registrations, while `Pump.Route` takes the table as it stands for one batch.
- Link numbers that the caller of `connect_in_process` chooses: `LinkTable` has only those the two counters hand out.
- Which packets of a drained batch a link is handed when the send of another link raises is in `Pump.Route`; the batches of `Bearers` are what the link was handed.
- HopEndpoint.HopEndpoint.Close: steps of other threads between its sections are in the step machine only; the method is one thread's uninterrupted pass.
