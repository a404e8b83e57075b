# A verified model of Arti's RPC server, DNS proxy and client front end

Arti is a Tor client.  This project models the parts of it in which many things happen at once or in
which text, bytes and identifiers must survive a round trip, and proves what those parts promise:

- **Cancellation and requests** (`Cancel`, `Inflight`, `RunLoop`, `Lifecycle`, `Guarantees`,
  `Responses`, `Cells`, `Messages`).  An RPC connection runs any number of requests at once, each of which can be cancelled
  by another.  The cell that a future and its cancel handle share, the table of requests, the loop
  and the tasks are classes and methods with specifications; all interleavings of them are the runs of
  one state machine over those same specifications.
- **Locks** (`Locks`).  Threads that poll, cancel, register, release and look up take locks one at a
  time, in any interleaving, with a readers-writer lock among them.
- **Objects and their ids** (`SlotMap`, `Bytes`, `GenIdx`, `Base64`, `GlobalIds`, `ObjMap`,
  `Objects`).  From the slot map whose versions never wrap around, through the blinded and
  authenticated encodings, to the life of an id at the connection and at the manager.
- **DNS** (`DnsQuery`, `Dns`).  Handlers that share one query for the same question and reply to
  everyone who asked.
- **Addresses** (`IpText`, `SocketText`, `Hostnames`, `Address`).  Text to address and back, and what
  is done with an address.
- **Protocol lists, retries, one-shot clients, framing** (`ProtoStatus`, `Retry`, `Oneshot`,
  `Framing`).

A machine has a state, a predicate `Enabled` and a function `Next`; a run is a sequence of states and
a sequence of events.  Main results are about every state of every run.

Where the code and what its comments say part, the model follows the code, and a lemma gives an input
and the exact condition:

- Two requests with one id: `Guarantees.CollisionHappens`, `Guarantees.UnreachableIffCollided`.
- A cancel request that fails although the request is cancelled: `Guarantees.FailedCancelOfCancelled`,
  `Guarantees.FailedCancelDidNotCancel`.
- A name whose suffix starts inside a character: `Address.PanicExample`, `Address.PanicsIff`.
- An override that is withdrawn: `ProtoStatus.ShrunkOverrideGoesUnnoticed`,
  `ProtoStatus.FiresIffNewsIsUncovered`.
- A one-shot client whose launch is given up: `Oneshot.GiveUpHappens`, `Oneshot.CanEndIffAtWork`;
  `Oneshot.LaunchingForever` says that it is for good.

## Model

| member | source | states |
|---|---|---|
| `Cancel.CancelInner.constructor` | crates/arti-rpcserver/src/cancel.rs:81-93 | A new future is pending and has no waker. |
| `Cancel.CancelInner.Poll` | crates/arti-rpcserver/src/cancel.rs:136-171 | A poll changes the shared cell as the specification `PollCell` says, and polls the wrapped future exactly when it was not cancelled. |
| `Cancel.CancelInner.Cancel` | crates/arti-rpcserver/src/cancel.rs:101-113 | A cancel changes the cell as `CancelCell` says: success only while pending, and then the stored waker is handed out to be woken. |
| `Cancel.RunKeepsInv` | crates/arti-rpcserver/src/cancel.rs:136-171 | Every state that polls and any number of cancel calls can reach, in any interleaving, satisfies the invariant. |
| `Cancel.CancelOrComplete` | crates/arti-rpcserver/src/cancel.rs:101-113 | In every run at most one cancel succeeds; a run never has both a successful cancel and a completed result; polls report cancellation only if some cancel succeeded. |
| `Cancel.NoLostWakeup` | crates/arti-rpcserver/src/cancel.rs:101-113 | While the future is pending the stored waker is that of its last pending poll; after a cancel exactly that waker is woken, once. |
| `Cancel.NoProgressAfterCancel` | crates/arti-rpcserver/src/cancel.rs:136-171 | From a successful cancel on the wrapped future is never polled again and every poll answers that it was cancelled. |
| `Cancel.RefusalSaysWhy` | crates/arti-rpcserver/src/cancel.rs:101-113 | A cancel that fails says why: the future had finished, or it was cancelled before. |
| `Inflight.Requests.RegisterRequest` | crates/arti-rpcserver/src/connection.rs:245-251 | Registering a request puts its cancel handle, or the fact that it has none, under its id and changes nothing else. |
| `Inflight.Requests.RemoveRequest` | crates/arti-rpcserver/src/connection.rs:237-243 | Removing a request removes the entry of its id and nothing else. |
| `Inflight.Requests.CancelRequest` | crates/arti-rpcserver/src/connection.rs:254-269 | Cancelling by id takes the handle out of the table, uses it once, and tells apart the unknown request, the one that cannot be cancelled, and the three answers of the handle. |
| `RunLoop.SelectLoop` | crates/arti-rpcserver/src/connection.rs:340-402 | The loop, arm by arm, is the specification `Turns` of its arms. |
| `RunLoop.Execute` | crates/arti-rpcserver/src/connection.rs:312-409 | Up to the first arm that stops it, the loop writes each response of the channel and an error under its id for each request that does not parse, and launches each request that does, in order; it succeeds exactly if it was stopped by the end of the input or by an error that means that the peer went away. |
| `RunLoop.LoopIsOutput` | crates/arti-rpcserver/src/connection.rs:340-409 | The same of the specification, for every sequence of arms. |
| `RunLoop.InvalidIsAnswered` | crates/arti-rpcserver/src/connection.rs:372-388 | A request that does not parse is answered with an error under its id if it has one, and stops the loop exactly if it has none. |
| `RunLoop.StoppedStays` | crates/arti-rpcserver/src/connection.rs:312-409 | Once the loop has ended nothing that comes later has any effect. |
| `Lifecycle.RunKeepsInv` | crates/arti-rpcserver/src/connection.rs:412-488 | The invariant of all invocations, the table, the channel and the output holds in every state of every interleaving. |
| `Lifecycle.NextKeepsHandles` | crates/arti-rpcserver/src/connection.rs:254-269 | Every step keeps the fact that a cancel handle is in one place: in the table, with the one request that took it, or used up. |
| `Lifecycle.NextKeepsNeverTwice` | crates/arti-rpcserver/src/connection.rs:723-741 | Every step keeps the fact that no handle was used on a request that was already cancelled. |
| `Lifecycle.NextKeepsSents` | crates/arti-rpcserver/src/connection.rs:424-480 | Every step keeps the shape of what each invocation has sent: updates, only if it asked for them, then its outcome, all under its own id. |
| `Lifecycle.NextKeepsStreams` | crates/arti-rpcserver/src/connection.rs:320-323 | Every step keeps, for each invocation, that what was written of it and then what is in the channel is in order what it sent. |
| `Guarantees.ResponsesOfAnInvocation` | crates/arti-rpcserver/src/msgs.rs:137-146 | What is written for one invocation is any number of updates, only if it asked for them, and then at most one final response, all under its own id. |
| `Responses.OutcomeIsResult` | crates/arti-rpcserver/src/connection.rs:447-470 | The outcome of a request is what its method returned, or that it was cancelled if that came first, and there is none before. |
| `Responses.WrittenIsSends` | crates/arti-rpcserver/src/connection.rs:412-488 | What a client is sent for a request, told from the events alone: every update that was emitted, if it asked for updates, then the value or error that the method returned, or the cancellation, in order. |
| `Responses.FinalIsResult` | crates/arti-rpcserver/src/connection.rs:457-470 | Once the method returned, the final response of its request is the value or the error that it returned. |
| `Responses.InvocationsAreLaunched` | crates/arti-rpcserver/src/connection.rs:390-396 | The invocations are those of the requests that the loop launched, in order. |
| `Cells.RequestsAreFutures` | crates/arti-rpcserver/src/connection.rs:447-452 | Each cancellable request goes through a run of one cancellable future, so that what is proved of those in `Cancel` holds of it. |
| `Cells.CancelErrorSaysWhy` | crates/arti-rpcserver/src/connection.rs:254-269 | A cancel request that fails says why: the request cannot be cancelled, nothing was registered under the id, or the request had finished. |
| `Guarantees.OnlyCancellableIsCancelled` | crates/arti-rpcserver/src/connection.rs:440-455 | Only a request whose method can be cancelled is ever cancelled. |
| `Guarantees.FinalIsNotLost` | crates/arti-rpcserver/src/connection.rs:447-487 | While the loop runs, the final response of an invocation that is done is written or waits in the channel. |
| `Guarantees.IdlessIsLast` | crates/arti-rpcserver/src/msgs.rs:91-98 | A response without an id is the last thing that is ever written. |
| `Guarantees.LoopIsRunLoop` | crates/arti-rpcserver/src/connection.rs:312-409 | The loop inside the state machine of all invocations does what `RunLoop.Execute` does for the arms of that run. |
| `Guarantees.CancelledIffHandleSucceeded` | crates/arti-rpcserver/src/connection.rs:447-470 | The outcome of a request, once it has one, is that it was cancelled exactly when its handle was used successfully, which happens at most once. |
| `Guarantees.KilledOnce` | crates/arti-rpcserver/src/connection.rs:254-269 | Two successful uses of handles are uses of the handles of two requests. |
| `Guarantees.NeverCancelledTwice` | crates/arti-rpcserver/src/connection.rs:723-741 | The error for a request that was already cancelled, which the source calls impossible, is never produced or written. |
| `Guarantees.SuccessfulCancelCancels` | crates/arti-rpcserver/src/connection/methods.rs:7-21 | If a cancel request is answered with success, a request with the named id was cancelled, and any final response of that request says so. |
| `Guarantees.CancelledByRequest` | crates/arti-rpcserver/src/connection/methods.rs:7-21 | A request is reported cancelled only because a cancel request named its id, and any final response of that cancel request reports success. |
| `Guarantees.FailedCancelDidNotCancel` | crates/arti-rpcserver/src/connection/methods.rs:12-13 | A cancel request that is answered with an error did not cancel a request with the named id, and such a request is cancelled exactly when another cancel request for it succeeded. |
| `Guarantees.FailedCancelOfCancelled` | crates/arti-rpcserver/src/connection/methods.rs:12-13 | There is a run in which a cancel request is told that the request was not found although that is cancelled. |
| `Guarantees.NoLeak` | crates/arti-rpcserver/src/connection.rs:237-251 | Every entry of the table belongs to a registered request with that id, even when ids collide, so the table is empty once all requests are done. |
| `Guarantees.UnreachableIffCollision` | crates/arti-rpcserver/src/connection.rs:485-486 | A registered request that nobody tried to cancel stops being cancellable by its id exactly when another request with the same id is registered or unregistered. |
| `Guarantees.UnreachableIffCollided` | crates/arti-rpcserver/src/connection.rs:485-486 | Over whole runs: from its registration on and while it is registered, a cancellable request is out of reach of its id exactly when another request with that id was registered or unregistered since, while its handle was in the table. |
| `Guarantees.CollisionHappens` | crates/arti-rpcserver/src/connection.rs:485-486 | There is a run in which that happens, with a request that is running and cancellable. |
| `Locks.OpIsOrderedIff` | crates/arti-rpcserver/src/mgr.rs:62-78 | An operation takes locks in the documented order from inside a poll exactly when it does not use a cancel handle, and from outside always. |
| `Locks.OrderedIffRule` | crates/arti-rpcserver/src/cancel.rs:18-25 | What a thread does takes locks in the documented order exactly when it uses no cancel handle from inside a cancellable future. |
| `Locks.RunKeepsOrder` | crates/arti-rpcserver/src/mgr.rs:62-78 | In every run of any number of threads that obey the rule, all of them keep to the order at all times. |
| `Locks.NoDeadlock` | crates/arti-rpcserver/src/mgr.rs:62-78 | In every state of every such run some thread can go on, unless all are finished. |
| `Locks.SomebodyCanStep` | crates/arti-rpcserver/src/mgr.rs:209-220 | From any thread that cannot go on, following who holds the lock it waits for leads to a thread that can. |
| `Locks.RunsAreFinite` | crates/arti-rpcserver/src/connection.rs:254-269 | Every step uses up one lock operation, so no run goes on for ever. |
| `Locks.MaximalRunFinishes` | crates/arti-rpcserver/src/mgr.rs:62-78 | A run that cannot be extended, of threads that obey the rule, has finished all of them, in as many steps as they had lock operations. |
| `Locks.LocksExclude` | crates/arti-rpcserver/src/mgr.rs:62-78 | In every state of every run a mutex has one holder, and who writes the dispatch table is alone with it. |
| `Locks.OpTakesWhatItNeeds` | crates/arti-rpcserver/src/mgr.rs:209-220 | Which locks each operation takes, and whether to read or to write. |
| `Locks.OrderIsDocumented` | crates/arti-rpcserver/src/mgr.rs:62-78 | The order of the locks is the documented one. |
| `Locks.SelfCancelDeadlocks` | crates/arti-rpcserver/src/cancel.rs:139-153 | The rule is needed: a cancellable future that cancels itself stops its thread for good. |
| `SlotMap.InsertAddsOne` | crates/slotmap-careful/src/lib.rs:285-326 | Inserting keeps the invariants of the map and adds one binding, under a key that is not in use and never was. |
| `SlotMap.RemoveRetires` | crates/slotmap-careful/src/lib.rs:328-356 | Removing keeps the invariants, takes away one binding and retires its key; the version of the slot does not wrap around. |
| `SlotMap.RemoveAtLimit` | crates/slotmap-careful/src/lib.rs:622-640 | A slot is marked unusable exactly when its key has the version 0x7fff_fffe, beyond which none is given out. |
| `SlotMap.WrappedMapReissues` | crates/slotmap-careful/src/lib.rs:57-74 | The map without the wrapper gives out a key again once the version of a slot wraps around. |
| `SlotMap.RunKeepsValid` | crates/slotmap-careful/src/lib.rs:511-536 | The invariants hold in every state of every run of insertions and removals. |
| `SlotMap.KeyLife` | crates/slotmap-careful/src/lib.rs:285-356 | From its insertion on a key finds its value until it is removed, and nothing ever after. |
| `SlotMap.NeverReissued` | crates/slotmap-careful/src/lib.rs:620-640 | No run gives out the same key twice. |
| `GenIdx.RoundTrip` | crates/arti-rpcserver/src/objmap.rs:160-202 | Decoding the bytes of an index gives the index back, whatever the random word was. |
| `GenIdx.DecodesExactly16Bytes` | crates/arti-rpcserver/src/objmap.rs:185-202 | Decoding fails exactly on a wrong length and always gives a key that an arena could have given out. |
| `GenIdx.EncodingsDiffer` | crates/arti-rpcserver/src/objmap.rs:160-174 | Two random words give the same bytes for an index exactly when they agree in their low 63 bits. |
| `GenIdx.IsEncodingIff` | crates/arti-rpcserver/src/objmap.rs:185-202 | Sixteen bytes are an encoding exactly when the unblinded word has the bit of a full slot set. |
| `GenIdx.Layout` | crates/arti-rpcserver/src/objmap.rs:160-174 | The layout of the bytes: two big-endian words, the lowest bit of the first for a weak index, the second the index plus the rest of the first. |
| `Base64.AlphabetIs` | crates/arti-rpcserver/src/objmap.rs:153-157 | The two alphabets are those of tables 1 and 2 of RFC 4648. |
| `Base64.GroupIsNumber` | crates/arti-rpcserver/src/objmap.rs:153-157 | Four digits are, as a number, the three bytes they stand for. |
| `Base64.LeftoverIsNumber` | crates/arti-rpcserver/src/objmap.rs:153-157 | One or two bytes left over are filled up with zero bits. |
| `Base64.DecodeIff` | crates/arti-rpcserver/src/objmap.rs:153-182 | Decoding unpadded Base64 accepts exactly the encodings (RFC 4648, sections 3.5, 4 and 5) and gives back what was encoded. |
| `GlobalIds.EncodeAsBytes` | crates/arti-rpcserver/src/globalid.rs:99-110 | The encoder, which reserves room for the MAC and fills it in last, gives the MAC of the rest and then the rest. |
| `GlobalIds.Layout` | crates/arti-rpcserver/src/globalid.rs:99-110 | The layout of a global id: MAC, connection, index, and the MAC is that of the other two. |
| `GlobalIds.RoundTrip` | crates/arti-rpcserver/src/globalid.rs:92-145 | Global ids decode to what they encode, for every key, connection, index and random word. |
| `GlobalIds.DecodesOnlyAuthentic` | crates/arti-rpcserver/src/globalid.rs:113-145 | A string decodes exactly when it is the Base64 of 48 bytes that start with the MAC of the other 32. |
| `ObjMap.WithoutDropsOne` | crates/arti-rpcserver/src/objmap.rs:230-246 | Removing an index keeps the weak arena and the reverse map inverse to each other, and only that index loses its object. |
| `ObjMap.WithStrongAddsOne` | crates/arti-rpcserver/src/objmap.rs:211-213 | Adding an object strongly keeps the map valid and changes what one index, never used before, finds. |
| `ObjMap.Map.constructor` | crates/arti-rpcserver/src/objmap.rs:206-208 | A new map is empty and valid. |
| `ObjMap.Map.AddStrong` | crates/arti-rpcserver/src/objmap.rs:211-213 | Adds the object to the strong arena under the index that is returned. |
| `ObjMap.Map.Delete` | crates/arti-rpcserver/src/objmap.rs:230-246 | Removes what the index finds from the arena and the reverse map and returns it unless it is gone; the removed reverse entry is the one of that index. |
| `ObjMap.Map.Tidy` | crates/arti-rpcserver/src/objmap/weakrefs.rs:80-96 | Drops every dead entry of the weak arena and nothing else, and keeps the map valid. |
| `ObjMap.Map.AddWeak` | crates/arti-rpcserver/src/objmap/weakrefs.rs:124-139 | Returns the index of the object, the one it already has if it has one; every other index finds what it found before, even if dead entries were dropped. It panics only if the arena has no index left. |
| `Objects.LocalRoundTrip` | crates/arti-rpcserver/src/objmap.rs:148-182 | A local id decodes to the index it was made for. |
| `Objects.IdNamesItsSlot` | crates/arti-rpcserver/src/connection.rs:173-205 | A returned id is never that of the connection itself, has the length of its kind, and names its slot to the connection that made it; every other connection refuses a global id and takes a local one for its own slot with that number. |
| `Objects.IdsDiffer` | crates/arti-rpcserver/src/connection.rs:632-650 | Ids for different slots differ, whatever the random words and kinds. |
| `Objects.Connection.RegisterOwned` | crates/arti-rpcserver/src/connection.rs:632-650 | Registering adds the object to the table and returns a global id for an exposed object and a local one otherwise. |
| `Objects.Connection.ReleaseOwned` | crates/arti-rpcserver/src/connection.rs:652-680 | Releasing an id drops its object, the session for the id of the connection, and otherwise reports an error and changes nothing. |
| `Objects.RunKeepsValid` | crates/arti-rpcserver/src/connection.rs:632-680 | The object table is valid in every state of every run. |
| `Objects.SlotLife` | crates/arti-rpcserver/src/connection.rs:632-680 | The slot of a registered object keeps it until it is released and is empty ever after. |
| `Objects.IdLife` | crates/arti-rpcserver/src/connection.rs:207-234 | A returned id looks up exactly its object until that is released, and nothing ever after. |
| `Objects.IdsNeverRepeat` | crates/arti-rpcserver/src/connection.rs:632-650 | No run of a connection returns the same id twice. |
| `Objects.ReleaseLife` | crates/arti-rpcserver/src/connection.rs:666-679 | Releasing a returned id succeeds until its object is released, and finds nothing ever after. |
| `Objects.ReleaseDropsOne` | crates/arti-rpcserver/src/connection.rs:652-680 | Releasing takes away what one strong index finds and nothing else; a weak index has the wrong type, and an id that does not decode finds nothing; both change nothing. |
| `Objects.ConnectionLife` | crates/arti-rpcserver/src/connection.rs:207-229 | The id "connection" finds the connection and can be released until it is released, and neither after that. |
| `Objects.WeakIds` | crates/arti-rpcserver/src/connection.rs:660-664 | An id of a weakly held object cannot be released, and finds the object while it is alive. |
| `Objects.LookupOfForeignId` | crates/arti-rpcserver/src/connection.rs:207-229 | An id that does not decode, or is of another connection, finds nothing. |
| `Objects.RpcMgr.NewConnection` | crates/arti-rpcserver/src/mgr.rs:168-199 | A new connection is registered under its id with the key of the manager. If a live connection has that id, the call panics, that connection is no longer found and the lock is poisoned; on a poisoned lock it panics and changes nothing. |
| `Objects.RpcMgr.LookupObject` | crates/arti-rpcserver/src/mgr.rs:202-220 | The manager finds what the connection named in an authentic id finds under its index, and panics exactly for an authentic id on a poisoned lock. |
| `Objects.ManagerResolves` | crates/arti-rpcserver/src/mgr.rs:202-220 | A global id resolves at the manager as at the connection that made it, to nothing once that is gone, and every other connection refuses it. |
| `Objects.ExposedIdLife` | crates/arti-rpcserver/src/mgr.rs:202-220 | End to end: the id of an exposed object resolves at the manager to its connection and object until it is released, and never after. |
| `DnsQuery.DoQuery` | crates/arti/src/dns.rs:67-148 | The first question that fails decides the error; otherwise the answers to all questions are returned in order. |
| `DnsQuery.AskOne` | crates/arti/src/dns.rs:85-145 | One question is answered, or fails, as `Failure` and `Answers` say, whose values the next rows give. |
| `DnsQuery.AddressRecordsContain` | crates/arti/src/dns.rs:94-141 | An address is among the records of a question exactly when the network gave it and it is of the kind asked for. |
| `DnsQuery.AddressQuestion` | crates/arti/src/dns.rs:94-105 | A question for addresses asks the network for the name without its final dot; a host that is not found is no error, any other failure is one of the server. |
| `DnsQuery.PointerQuestion` | crates/arti/src/dns.rs:106-121 | A reverse question: a name that is no reverse name is a format error, a name in the answer that does not parse a server failure, and otherwise there is one record for each name, in order. |
| `DnsQuery.OtherQuestion` | crates/arti/src/dns.rs:122-130 | Exactly the questions of another type or class are not implemented. |
| `DnsQuery.RecordOfAddress` | crates/arti/src/dns.rs:131-141 | An address of the kind asked for gives a record with the name of the question that lives 3600 seconds; another gives none. |
| `DnsQuery.AddressRecordsConcat` | crates/arti/src/dns.rs:131-141 | The records of addresses are in the order of the addresses. |
| `DnsQuery.AnswersAnswerQuestions` | crates/arti/src/dns.rs:67-148 | Every answer has the name of a question of the message and is of the kind that question asked for. |
| `Dns.CurrentRequests.Join` | crates/arti/src/dns.rs:171-188 | A datagram joins the list of its key, and leads exactly if it is alone on it. |
| `Dns.CurrentRequests.TakeTargets` | crates/arti/src/dns.rs:209-216 | Taking the targets of a key gives everyone on its list and removes the key. |
| `Dns.ReplyToAll` | crates/arti/src/dns.rs:217-232 | The loop sends each target its own reply, in order, and skips those that do not serialize. |
| `Dns.EveryoneIsAnswered` | crates/arti/src/dns.rs:217-232 | If every message serializes, each target gets exactly one reply. |
| `Dns.RunKeepsInv` | crates/arti/src/dns.rs:153-233 | The invariant of the pending map, the handlers and the replies holds in every state of every interleaving. |
| `Dns.InSomePlace` | crates/arti/src/dns.rs:166-232 | A datagram whose handler has reached the map is at every moment waiting, held by a handler that is answering, or handled. |
| `Dns.InOnePlace` | crates/arti/src/dns.rs:166-232 | It is never in two of those places, nor twice in one, so it is handled at most once. |
| `Dns.KeyIffLeader` | crates/arti/src/dns.rs:171-188 | A key is in the map exactly while one handler is between joining and leaving under it, and that handler is unique. |
| `Dns.RemoveFindsTargets` | crates/arti/src/dns.rs:209-216 | A leader that removes its list finds it, with at least its own datagram. |
| `Dns.RepliesAreForTheirDatagrams` | crates/arti/src/dns.rs:35-64 | Whatever equality the DNS library has on questions: a reply carries the transaction id of its datagram, goes to its address through its socket, and was computed for its isolation key and for equal questions, as the leader wrote them. |
| `Dns.RepliesHaveResults` | crates/arti/src/dns.rs:192-206 | The result in a reply is what the query of its leader came to. |
| `Dns.TurnsAreHandled` | crates/arti/src/dns.rs:217-232 | Every turn of a reply loop handles one datagram, and replies to it exactly if the message serialized. |
| `Dns.LeadersTextIsSent` | crates/arti/src/dns.rs:192-206 | Of two texts of questions that are taken for equal, there is a run in which the second is answered with the first. |
| `Dns.NobodyIsForgotten` | crates/arti/src/dns.rs:153-233 | Once all handlers have returned the map is empty and every datagram has been handled. |
| `IpText.ScanZeros` | crates/arti-client/src/address.rs:338-345 | The run of zeros that the printer of IPv6 addresses leaves out is a longest one, and the first of those. |
| `IpText.ReadPrintedIpv4` | crates/arti-client/src/address.rs:471-482 | A printed IPv4 address reads back, whatever follows it that is not a digit. |
| `IpText.ReadPrintedIpv6` | crates/arti-client/src/address.rs:471-482 | A printed IPv6 address reads back: in full, with its zeros left out wherever they are, or with an embedded IPv4 address. |
| `SocketText.ParsePrintedIp` | crates/arti-client/src/address.rs:410-416 | Every printed IP address parses to itself. |
| `SocketText.Ipv4HasOneText` | crates/arti-client/src/address.rs:410-416 | The printed text of an IPv4 address is the only text that parses to it. |
| `SocketText.ScopeIsDropped` | crates/arti-client/src/address.rs:471-474 | The scope of an IPv6 address is read and dropped. |
| `IpText.GroupTexts` | crates/arti-client/src/address.rs:471-474 | A group of an IPv6 address may have zeros in front and digits of either case, with at most four digits. |
| `SocketText.ParsePrintedV4` | crates/arti-client/src/address.rs:338-345 | A printed IPv4 address and port parse to that address and port. |
| `SocketText.ParsePrintedV6` | crates/arti-client/src/address.rs:338-345 | A printed IPv6 address in brackets and port parse to that address and port. |
| `SocketText.NamesAreNotSockets` | crates/arti-client/src/address.rs:471-482 | A name without a colon, a colon and a port are a socket address only if the name alone is an IPv4 address. |
| `SocketText.SocketChars` | crates/arti-client/src/address.rs:471-482 | Text that parses as a socket address has a colon and consists of ASCII characters of a few kinds. |
| `Hostnames.ServiceIsOneLabel` | crates/arti-client/src/address.rs:249-257 | The part of a valid onion name that identifies the service is one whole label, not empty, and the suffix. |
| `Hostnames.ValidNamesDoNotPanic` | crates/tor-basic-utils/src/lib.rs:109-120 | Looking for the onion suffix of a valid name does not panic. |
| `Hostnames.OneLabelIsValid` | crates/arti-client/src/address.rs:560-565 | Which names without a dot are valid. |
| `Hostnames.JoinIsValid` | crates/arti-client/src/address.rs:560-565 | A dotted name is valid exactly if its parts are and it has at most 253 characters. |
| `Hostnames.CaseIsIgnored` | crates/tor-basic-utils/src/lib.rs:109-120 | Comparing without case takes each letter for its other case, and no other characters. |
| `Address.ParsedIsWellFormed` | crates/arti-client/src/address.rs:388-428 | Every address parsed from text has a nonzero port and a host that keeps its documented invariant: a name is valid and neither an IP address nor an onion name. |
| `Address.FromPartsIsWellFormed` | crates/arti-client/src/address.rs:497-503 | The same for an address given as host and port. |
| `Address.FromIpIsWellFormed` | crates/arti-client/src/address.rs:518-558 | An IP address and a port give a well-formed address unless the port is zero, and it is the address that the text of the IP address and the port give. |
| `Address.RoundTrip` | crates/arti-client/src/address.rs:338-345 | Printing a well-formed address and parsing the text gives the address back, for names, onion names, IPv4 and IPv6. |
| `Address.PartsRoundTrip` | crates/arti-client/src/address.rs:449-457 | The printed host and the port, given as a pair, give the address back too. |
| `Address.PrintIsInjective` | crates/arti-client/src/address.rs:338-345 | Well-formed addresses that print alike are the same. |
| `Address.NormalForm` | crates/arti-client/src/address.rs:471-482 | Whatever text an address was parsed from, its printed form is another text of it. |
| `Address.NameTexts` | crates/arti-client/src/address.rs:471-482 | The texts of an address with a name are exactly the name, a colon and a decimal text of the port. |
| `Address.NoPortIffNoColon` | crates/arti-client/src/address.rs:471-482 | Parsing reports a missing port exactly when the text has no colon. |
| `Address.PortTexts` | crates/arti-client/src/address.rs:477-477 | The texts of a port are a plus sign or none, zeros, and its numeral. |
| `Address.NameErrors` | crates/arti-client/src/address.rs:471-482 | Of a host and a port that are no socket address, the host is reported if it is neither a valid name nor an IP address, and else the port if it is no number from 1 to 65535. |
| `Address.SocketErrors` | crates/arti-client/src/address.rs:206-212 | A socket address is refused only for a port of zero. |
| `Address.PanicsIff` | crates/tor-basic-utils/src/lib.rs:109-120 | Parsing panics exactly when the part before the last colon has more than six bytes and the sixth from its end is inside a character. |
| `Address.AsciiNeverPanics` | crates/arti-client/src/address.rs:471-482 | Parsing ASCII text never panics. |
| `Address.PanicExample` | crates/tor-basic-utils/src/lib.rs:109-115 | A valid UTF-8 text on which parsing panics. |
| `Address.EnforcedByConfigAlone` | crates/arti-client/src/address.rs:301-335 | For a host that keeps its invariant only locality and the onion setting decide, and the two rejections that "ought not to occur" do not. |
| `Address.LocalNetworks` | crates/arti-client/src/address.rs:433-447 | The local IPv4 addresses are those of 127.0.0.0/8 and of the three networks of section 3 of RFC 1918. |
| `Address.OtherLocals` | crates/arti-client/src/address.rs:433-447 | Of names only localhost, in any case, is local; of IPv6 addresses only the loopback address; no onion name is. |
| `Address.OnionSetting` | crates/arti-client/src/address.rs:322-333 | The preference of a stream decides about onion names, and the configuration where it does not. |
| `Address.MalformedNamesAreRefused` | crates/arti-client/src/address.rs:311-320 | Those two rejections meet exactly the names that are malformed or onion names; with the condition that a name is not an IP address, which is not looked at again, that is the invariant. |
| `Address.ParsedAddressIsUsable` | crates/arti-client/src/address.rs:311-320 | No address that was parsed from text meets them. |
| `Address.ExitTargetDenotesAddress` | crates/arti-client/src/address.rs:235-264 | The target that an exit is asked for denotes the same host and port as the address; a service stream keeps the whole onion name. |
| `Address.ServiceIdIsOneLabel` | crates/arti-client/src/address.rs:249-263 | The text given to the parser of service ids is the last label before the suffix, whole and not empty, and the suffix. |
| `Address.ResolveFollowsConfig` | crates/arti-client/src/address.rs:268-292 | Looking up an onion name gives its own error under every configuration; any other address is looked up exactly when a stream to it is allowed: a name by asking an exit for it, an IP address by returning it. |
| `ProtoStatus.FatalIffUncovered` | crates/arti-client/src/protostatus.rs:179-239 | A status is fatal exactly when the client lists require a subprotocol that the software lacks and the user does not ignore; the error names all that are missing. |
| `ProtoStatus.CheckReports` | crates/tor-netdoc/src/doc/netstatus.rs:247-264 | What is missing is reported, required subprotocols first. |
| `ProtoStatus.Watch` | crates/arti-client/src/protostatus.rs:103-160 | The loop evaluates the statuses seen that are not older than the software, without consecutive repeats counted from the initial one, up to and including the first fatal one, and tells the handler of that. |
| `ProtoStatus.FatalOnce` | crates/arti-client/src/protostatus.rs:143-152 | The handler is called at most once, and exactly when the last status evaluated is fatal. |
| `ProtoStatus.FiresIffNewsIsUncovered` | crates/arti-client/src/protostatus.rs:134-152 | The handler is called exactly when some status seen that is not older than the software is uncovered and is not the same as the one before it. |
| `ProtoStatus.FiresIffUncovered` | crates/arti-client/src/protostatus.rs:134-152 | While the overrides stay the same, repeats do not matter: it is called exactly when some status seen that is not older than the software is uncovered. |
| `ProtoStatus.ShrunkOverrideGoesUnnoticed` | crates/arti-client/src/protostatus.rs:138-141 | When an override is withdrawn, a status that is seen again and is now uncovered goes unnoticed. |
| `ProtoStatus.StartupDecides` | crates/arti-client/src/protostatus.rs:59-79 | The watcher starts from the cached status exactly if that is not older than the software and is covered; an uncovered one is a refusal to start. |
| `ProtoStatus.CachedIsEvaluatedOnce` | crates/arti-client/src/protostatus.rs:59-79 | A status that is cached and then seen first is not evaluated again. |
| `ProtoStatus.RunsOnIffCovered` | crates/arti-client/src/protostatus.rs:59-90 | With the check at startup, and overrides that stay the same, the software runs on exactly as long as no status that is not older than it is uncovered. |
| `Retry.Attempt` | crates/arti-client/src/builder.rs:190-199 | The loop ends, at the first attempt whose outcome is final, with that outcome. |
| `Retry.Create` | crates/arti-client/src/builder.rs:186-225 | A time limit above the maximum is refused before any attempt; otherwise the loop runs until that limit. |
| `Retry.TimeoutIs` | crates/arti-client/src/builder.rs:290-302 | The limit is the one configured, or else the default; one above five seconds is refused and not cut down. |
| `Retry.RunIsFair` | crates/arti-client/src/builder.rs:255-278 | Every pause is of 50 ms, or shorter and up to the time limit, and none is empty; the error of a resource in use is given only once the time is up; any other outcome is given at once. |
| `Retry.AttemptsAreBounded` | crates/arti-client/src/builder.rs:255-278 | There are at most one attempt more than the pauses of 50 ms that it takes to reach the time limit. |
| `Retry.AttemptsInNumbers` | crates/arti-client/src/builder.rs:88-88 | At most 101 attempts under any limit, 11 with the default of the asynchronous form and one with that of the blocking form. |
| `Retry.LimitIsReached` | crates/arti-client/src/builder.rs:255-278 | The bound is exact: a resource that stays in use and a clock that keeps exact time reach it. |
| `Oneshot.OneshotClient.constructor` | crates/arti-rpcserver/src/stream.rs:103-107 | A new client is unused. |
| `Oneshot.OneshotClient.TakeConnector` | crates/arti-rpcserver/src/stream.rs:112-121 | Taking the connector of an unused client gives it and sets the new state; otherwise the state is left as it was. |
| `Oneshot.OneshotClient.Install` | crates/arti-rpcserver/src/stream.rs:181-193 | The state that is put in place once the connector has answered is that of the stream, or the failure. |
| `Oneshot.RunKeepsInv` | crates/arti-rpcserver/src/stream.rs:43-76 | In every interleaving of calls the state of the client fits where the one call that holds the connector is. |
| `Oneshot.HandedOutOnce` | crates/arti-rpcserver/src/stream.rs:112-121 | The connector is handed out at most once. |
| `Oneshot.FirstCallWins` | crates/arti-rpcserver/src/stream.rs:112-121 | The first call gets it, the one that the client was made with; every later one is refused and leaves the state unchanged. |
| `Oneshot.LaunchingEndsByItsCall` | crates/arti-rpcserver/src/stream.rs:50-55 | Only the connecting call that waits for the connector can end the state of launching, and it leads to a stream or a failure. |
| `Oneshot.TerminalForever` | crates/arti-rpcserver/src/stream.rs:56-76 | The three last states are never left. |
| `Oneshot.CallsAreExplained` | crates/arti-rpcserver/src/stream.rs:139-241 | Every call is where its events brought it: each way of ending has its own cause, a call that is not optimistic waits for its connection and an optimistic one does not. |
| `Oneshot.StreamIsConnected` | crates/arti-rpcserver/src/stream.rs:197-203 | A call that is not optimistic returns a stream only after waiting for its connection succeeded. |
| `Oneshot.ConnectedMeansStream` | crates/arti-rpcserver/src/stream.rs:139-207 | A call that returns a stream left the client in the state of that stream, and there it stays. |
| `Oneshot.LaunchingForever` | crates/arti-rpcserver/src/stream.rs:173-181 | A connecting call that could not delegate, or was dropped before, leaves the client launching for good. |
| `Oneshot.LaunchingHasCall` | crates/arti-rpcserver/src/stream.rs:50-55 | While the client is launching there is a connecting call that is at work, or that gave up in one of these ways. |
| `Oneshot.CanEndIffAtWork` | crates/arti-rpcserver/src/stream.rs:50-55 | While the client is launching, some event can end that exactly when a connecting call waits for the connector, which is exactly when none gave up. |
| `Oneshot.GiveUpHappens` | crates/arti-rpcserver/src/stream.rs:173-181 | There is a run in which the connector cannot be called and the client is left launching. |
| `Framing.Encoder.Encode` | crates/arti-rpcserver/src/codecs.rs:32-39 | Encoding appends the message and a newline to the buffer. |
| `Framing.EncodeAll` | crates/arti-rpcserver/src/codecs.rs:32-39 | Encoding messages in turn appends their frames in turn. |
| `Framing.Reader.ReadLine` | crates/arti-rpc-client-core/src/llconn.rs:47-51 | Reading a line takes characters up to and including the first newline, or all of them. |
| `Framing.Reader.ReadMsg` | crates/arti-rpc-client-core/src/llconn.rs:47-60 | Reading a message gives a terminated line, and nothing at the end of the input or for a truncated line. |
| `Framing.TruncatedRead` | crates/arti-rpc-client-core/src/llconn.rs:53-59 | Wherever the output of the encoder is cut, reading gives exactly the messages that are whole in it and drops the rest. |
| `Framing.WholeMessages` | crates/arti-rpc-client-core/src/llconn.rs:53-59 | Every cut has a number of whole messages. |
| `Framing.RoundTrip` | crates/arti-rpc-client-core/src/llconn.rs:47-60 | Reading the output of the encoder gives the messages and then the end of the stream. |
| `Framing.FramesInjective` | crates/arti-rpcserver/src/codecs.rs:32-39 | Different sequences of messages are written differently. |

## Left out

- Channels between a request and the loop are unbounded in the model, so that it has more
  interleavings than the bounded channels of the source and none fewer; it does not show a full channel.
- Payloads of requests and responses are numbers, and an error of a method is kept apart from the error
  of a cancelled request; the source has one error type for both.
- JSON, the parsing of requests, authentication of connections and the dispatch of methods to objects.
- The assertion at crates/arti-rpcserver/src/connection.rs:353, which debug builds make, that no response
  from the channel is final: final responses take the same channel, as the comment at lines 320-323 says,
  so the model is that of a build without it.
- Fairness and timing of the scheduler: what is proved is that nothing bad happens and that somebody can
  go on, not that each thread does.
- Panics inside methods, and poisoned locks other than that of the manager.
- The strength of the MAC, which is any function here, and of random numbers, which are arguments.
- Ids of connections are compared with those of connections that are alive; that a random id never comes
  back after its connection is gone is not claimed.
- ObjMap.Map.AddWeak: does not model how the capacity of the arena grows; whether it is about to grow is an
  argument.
- SlotMap: iterators, capacity, and the other maps that the same macro defines.
- The wrapped slot map, Base64, the text of IP addresses and the rules for host names come from crates
  and a library that are not part of the repository; they are modelled by their documented behaviour.
- Dns.RepliesAreForTheirDatagrams: does not speak of the bit that asks for recursion, which the source
  copies from the query of the leader.
- The wire format of DNS messages, the size limit of datagrams and the sockets.
- Address: the feature for onion services is on; the parser of service ids is an argument.
- Address.PanicsIff: a string is a sequence of bytes, one character per byte, and need not be valid UTF-8.
- ProtoStatus.FiresIffUncovered: holds while the overrides stay the same;
  `ProtoStatus.FiresIffNewsIsUncovered` is the statement for all inputs.
- What is logged, among it the warning for recommended subprotocols and for the first retry.
- Retry.Create: the clock is assumed to advance by at least each pause; with a clock that stands still
  the loop of the source does not end.
- Oneshot: that a launch always comes to an end is not claimed, because it does not; what becomes of a
  stream after it is connected.
- Framing: errors of the backend and bytes that are not UTF-8.
- The client's circuits, directories, bootstrapping, configuration files, proxies other than DNS, the
  command line, the FFI layer and the cryptography.
