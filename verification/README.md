# A verified model of the chat server and its network runtime

Two layers of the chat system are modelled and proved: the `mulib` network
runtime (event loop, poller, timer queue, connections, buffers, framing, worker
pool), and the social graph and offline mailboxes that the server keeps in Redis.

## The runtime

* `Framing` – the 32-bit length-prefixed framing. The parser is shown to be the
  only way of cutting a byte string into messages and a residue; the result does
  not depend on how the bytes were divided into chunks.
* `ByteBuffer` – the growable array with a reader and a writer index, as a real
  array updated in place. It refines a byte queue through compaction and growth,
  and its length is bounded by the largest readable count so far.
* `Poller` – channels and their registration: a channel's index is "added" exactly
  when the kernel holds its descriptor with its pointer, and a request for one
  channel leaves the entries of all other descriptors alone.
* `Connection` – output through partial writes, the output buffer, write interest
  and half-close. `wire` and `writeShut` stand for the socket: what the kernel took
  and whether the write side is shut; ghost fields record what was taken for sending
  and whether a write met EPIPE or ECONNRESET.
* `Pipeline` – both ends together. Absent a write fault the messages delivered are
  always a prefix of those sent, and all of them once buffer and wire are empty.
* `StreamEvents` – every event of a connection as a move of plain values, without
  buffers or pollers; and progress: all that was sent can still be delivered.
* `Loops` – one loop with any number of connections and other channels on one poller,
  which come and go on reused descriptors: no step for one disturbs another, so the
  theorem of `Pipeline` holds for all of them in every run, and the run is a trace of
  the moves of `StreamEvents`.
* `Timers` – the timer queue. A callback is an arbitrary list of additions and
  cancellations, between which other threads add and cancel too; addresses are reused
  freely; a timer is in one place at a time. The closures that wait in the loop are a
  field of the queue. Both indexes together refine one table of timers: after every run
  the timers, the closures, the time the descriptor is set to and the callbacks that ran
  are those of the table.
* `EventLoop` and `WorkerPool` – state machines over the atomic steps of the loop
  thread and any number of foreign threads, and of workers, callers, tasks and the
  destructor. Results hold in every reachable state, which is a function of the history
  of steps.

System calls appear as parameters that range over everything their contract
allows: short counts, would-block, errors, any division of the stream into reads,
any readiness report, any time at which the timer descriptor fires.

## The store

`Store` holds the keyspace as maps and sets and says what each handler does to it;
a hash exists exactly when it has a field. `Decimal` is the arithmetic of the field
names of a mailbox. `ChatServer` is the imperative form: one store command after
another, loops over what Redis answers in any order, failed parses as outcomes; each
method is proved to do what `Store` says. Above that:

* `Friendship` – friend lists are symmetric, requests are never pending both ways,
  friends have no request between them.
* `Groups` – every member of a group has the group in their own list, a group has at
  most one owner, commands respect ranks.
* `Mailbox` – the unread count and the numbered fields are one first-in-first-out
  queue per sender.
* `GroupCounts` – over whole runs the unread count of a group is the number of messages
  missed since the count was last reset.
* `ChatRuns` – all of this over every sequence of requests: every stored message leaves
  its queue once, in order.
* `Histories` – the law of every single entry: which requests make it and which take it
  away. After any history an entry is there exactly if it was made and not taken away
  since, so the history alone decides which message is stored and who is in a group.
* `Dispatch` – the same through the handlers: none fails half-way in an allowed run, and
  what the readers receive is what was stored for them.
* `Witnesses` – runs from the empty server to the stores that show a condition needed.

A handler is one atomic step on the store.

## Where the code does not keep a promise

Each of these is a theorem that gives the exact condition.

* `README.md:20` of the repository says that strangers cannot chat. The server
  stores such a message all the same, and friend lists stop being symmetric:
  `Friendship.SymmetryExactly`, at a store that is reached `Witnesses.StrangerReached`.
  The receiver's deletion of such a sender fails half-way:
  `Witnesses.DeletionAfterMessage`. The run theorems take messages between friends only.
* `verifyUser` does not compare the pass with the kind of entry, so a friend
  verification can accept an invitation to a group of the same name:
  `Friendship.UntaggedFieldExactly`, `Groups.MembersListedExactly`, and a run that gets
  there is `Witnesses.CrossingReached`. The run theorems
  take friend verifications that do not name a group.
* Two senders share a mailbox field exactly when one name is the other followed by a
  number without leading zero: `Decimal.FieldsCollideExactly`, `Witnesses.SafeNamesExactly`.
* A group in a user's list need not have the user as a member. Of all requests exactly
  two break this: deleting the owner of a group that has others in it, which leaves the
  group in their lists, and asking for the history of a group one is not in, which
  lists it: `ChatRuns.ListedExactly`; three requests lead to the first case:
  `Witnesses.ListedIsNotMember`.
* A removal by somebody who is no member passes the rank test: `Groups.RemovalExactly`;
  an outsider removes the owner in a store that is reached: `Witnesses.OutsiderReached`.
* An owner who is named among the members of a new group ends up as a plain member:
  `Groups.CreateGroupMembers`.
* A functor queued by the owner thread before `loop` starts is watched exactly if the
  eventfd is readable or a thread has yet to write to it, and over all runs the loop
  sleeps on queued work exactly if there was such a push and no swap since:
  `EventLoop.EarlyPushWatchedExactly`, `EventLoop.StrandedExactly`.
* A call of `quit` before `loop` starts is taken back: the loop is told to quit exactly
  if some call has no start after it, `EventLoop.QuitKeptExactly`. What is pushed after
  the last swap never runs: `EventLoop.ExitedRanExactly`.
* A cancellation reaches a timer that is active, and one of the batch if a callback asks
  for it, but not one whose addition still waits in the loop:
  `Timers.TimerQueue.CancelReachesExactly`, `Timers.Call`.
* A message of 2^31 bytes or more does not survive its frame: `Framing.RoundTripExactly`;
  the splitter is stalled for good exactly when the first byte it holds has its high
  bit set: `Framing.StallsExactly`.
* Registering a second channel on a descriptor that is taken is the only illegal
  request a channel can cause: `Poller.Epoller.UpdateChannel`.

Two places where the sources leave a value open: `callingExpiredTimers_` and
`callingPendingFunctors_` are taken as initially false, and the timer deleted at
`netlib/net/TimerQueue.cc:102` is the one found at line 95.

## Model

| member | source | states |
|---|---|---|
| `Framing.WordOfDigits` | base/MessageSplitter.h:55-58 | reading back the big-endian digits of a number that fits gives the number |
| `Framing.DigitsOfWord` | base/MessageSplitter.h:35-37 | a byte string is the big-endian form of its own value |
| `Framing.ReadBigEndian` | base/MessageSplitter.h:55-58 | reading the length back from a header gives the length written, as a signed 32-bit number |
| `Framing.BigEndianRead` | base/MessageSplitter.h:35-37 | a header is determined by the length read from it |
| `Framing.ReadInt32Is` | base/MessageSplitter.h:35-37 | the four bytes are read most significant first, as a two's complement number |
| `Framing.EncodeIs` | base/MessageSplitter.h:53-61 | a frame is the four bytes of the length by division, most significant first, and the message |
| `Framing.EncodeAllAppend` | base/MessageSplitter.h:53-61 | frames of a concatenation are the concatenation of the frames |
| `Framing.ParseStep` | base/MessageSplitter.h:39-49 | a whole frame at the head yields its message and leaves the tail |
| `Framing.CompleteSplits` | base/MessageSplitter.h:39-46 | a buffer on which the loop goes on is one frame followed by what is kept |
| `Framing.ParseUnique` | base/MessageSplitter.h:28-52 | messages and residue are what the parser finds if and only if their frames and the residue rebuild the input, every length fits and no whole message is left |
| `Framing.ParseRebuilds` | base/MessageSplitter.h:28-52 | frames of the extracted messages followed by the residue are the input |
| `Framing.ParseEncoded` | base/MessageSplitter.h:28-61 | frames followed by anything yield those messages first |
| `Framing.ParseInTwo` | base/MessageSplitter.h:28-52 | a byte string fed in two pieces gives the same messages and residue |
| `Framing.ChunkingIsIrrelevant` | base/MessageSplitter.h:28-52 | any division into chunks gives the same messages and residue as the whole |
| `Framing.RoundTripExactly` | base/MessageSplitter.h:53-61 | a message survives its frame if and only if it is shorter than 2^31 bytes |
| `Framing.NegativeLengthStalls` | base/MessageSplitter.h:39-43 | a buffer with a negative length at its head stays as it is and yields nothing, whatever arrives behind it |
| `Framing.NegativeExactly` | base/MessageSplitter.h:35-39 | a length reads as negative if and only if the first byte has its high bit set |
| `Framing.StallsExactly` | base/MessageSplitter.h:32-43 | whatever arrives, nothing is ever extracted if and only if the first byte held has its high bit set, be the header complete or not |
| `Framing.PrefixDelivery` | base/MessageSplitter.h:28-61 | messages parsed from a prefix of the frames are a prefix of the messages, all of them exactly when every byte has arrived |
| `Framing.ParseAllEncoded` | base/MessageSplitter.h:28-61 | frames alone yield exactly their messages and no residue |
| `Framing.MessageSplitter.Append` | base/MessageSplitter.h:28-52 | the loop appends exactly the messages the parser finds, keeps its residue, and taken plus queued stays what all bytes fed parse to |
| `Framing.MessageSplitter.NextMessage` | base/MessageSplitter.h:63-72 | hands out the oldest message, or reports that there is none |
| `ByteBuffer.Buffer.constructor` | netlib/net/Buffer.cc:8-15 | an empty queue in an array of 1032 bytes |
| `ByteBuffer.Buffer.Retrieve` | netlib/net/Buffer.cc:42-45 | removes a prefix of the queue |
| `ByteBuffer.Buffer.RetrieveAll` | netlib/net/Buffer.cc:51-54 | empties the queue |
| `ByteBuffer.Buffer.RetrieveAsString` | netlib/net/Buffer.cc:58-63 | returns and removes a prefix of the queue |
| `ByteBuffer.Buffer.RetrieveAllAsString` | netlib/net/Buffer.cc:55-57 | returns the whole queue and empties it |
| `ByteBuffer.Buffer.CopyIn` | netlib/net/Buffer.cc:72 | places a byte string in the array and leaves the rest |
| `ByteBuffer.Buffer.CopyDown` | netlib/net/Buffer.cc:123 | an overlapping copy downwards moves the stretch unchanged |
| `ByteBuffer.Buffer.MakeSpace` | netlib/net/Buffer.cc:117-129 | the queue is kept and the space is there; the array grows exactly when the reclaimable prefix is too small; the assertion of the compaction branch holds |
| `ByteBuffer.Buffer.EnsureWritableBytes` | netlib/net/Buffer.cc:64-69 | the space is there afterwards, and the array changed only where growth was needed |
| `ByteBuffer.Buffer.Fill` | netlib/net/Buffer.cc:72-83 | bytes written behind the write index extend the queue |
| `ByteBuffer.Buffer.Append` | netlib/net/Buffer.cc:70-74 | the queue is extended at its end, through compaction or growth, within the space bound |
| `ByteBuffer.Buffer.Prepend` | netlib/net/Buffer.cc:84-89 | the queue is extended at its front |
| `ByteBuffer.Buffer.ReadFd` | netlib/net/Buffer.cc:94-116 | whatever `readv` delivers is appended in order, across both areas; an error changes nothing |
| `ByteBuffer.Buffer.Swap` | netlib/net/Buffer.cc:26-30 | the two queues change places |
| `ByteBuffer.BoundIsAttained` | netlib/net/Buffer.cc:64-74 | the space bound max(1032, 2*peak + 7), an invariant of every operation, is reached for every peak above 1024 |
| `Poller.Channel.constructor` | netlib/net/Channel.cc:11-12 | a channel starts with no interest and unregistered |
| `Poller.Channel.EnableReading` | netlib/net/Channel.cc:99-102 | the kernel holds the channel with the new mask; other descriptors keep their entries |
| `Poller.Channel.DisableReading` | netlib/net/Channel.cc:104-106 | changes the mask without telling the kernel |
| `Poller.Channel.EnableWriting` | netlib/net/Channel.cc:108-111 | the kernel holds the channel with the new mask; other descriptors keep their entries |
| `Poller.Channel.DisableWriting` | netlib/net/Channel.cc:113-116 | the kernel's view follows the new mask; other descriptors keep their entries |
| `Poller.Channel.DisableAll` | netlib/net/Channel.cc:118-121 | the kernel's view follows the empty mask; other descriptors keep their entries |
| `Poller.Channel.Update` | netlib/net/Channel.cc:122-124 | registration and index agree afterwards; no other channel and no entry of another descriptor changes |
| `Poller.Epoller.Ctl` | netlib/net/Epoller.cc:92-106 | which requests the kernel accepts and what they do to its set |
| `Poller.Epoller.UpdateChannel` | netlib/net/Epoller.cc:57-78 | the request is legal, and the index still says who is registered, if and only if the channel is registered or its descriptor is free; the table of channels gains exactly a new channel |
| `Poller.Epoller.RemoveChannel` | netlib/net/Epoller.cc:80-91 | always legal, also for a second removal; exactly this registration and its entry in the table go, others stay |
| `Poller.Ask` | netlib/net/Channel.cc:99-124 | any request but a removal gives the mask and the index asked for, keeps the poller consistent and leaves the entries and indexes of the other channels |
| `Poller.HeldIs` | netlib/net/Epoller.cc:57-78 | the kernel holds a descriptor for another channel if and only if the index of another channel says so |
| `Poller.Handle` | netlib/net/Epoller.cc:57-91 | one request of a run moves masks and indexes as without a kernel, and is never refused |
| `Poller.Run` | netlib/net/Epoller.cc:57-91 | in any run that creates channels and never registers two on one descriptor the kernel refuses no request, each index says whether its channel is registered, and masks and indexes are those of the run without a kernel |
| `Connection.SizeGuardExact` | netlib/net/TcpConnection.cc:127-161 | the assertion before buffering holds exactly for sizes under 2^31 or that turn negative as an `int` |
| `Connection.TcpConnection.constructor` | netlib/net/TcpConnection.cc:6-21 | a connecting connection with nothing sent |
| `Connection.TcpConnection.ConnectEstablished` | netlib/net/TcpConnection.cc:42-48 | connected, reading is added to the interest, registered; other descriptors keep their entries, here and below |
| `Connection.TcpConnection.ShutdownInLoop` | netlib/net/TcpConnection.cc:79-85 | the write side is closed only when every byte taken is on the wire |
| `Connection.TcpConnection.Shutdown` | netlib/net/TcpConnection.cc:71-78 | only a connected connection starts to disconnect |
| `Connection.TcpConnection.TryWrite` | netlib/net/TcpConnection.cc:136-159 | the bytes the kernel took are on the wire; the rest and a fault are reported; write-complete is queued exactly when nothing remains |
| `Connection.TcpConnection.CheckHighWater` | netlib/net/TcpConnection.cc:164-168 | the high-water callback is queued exactly when the mark is crossed |
| `Connection.TcpConnection.AppendRest` | netlib/net/TcpConnection.cc:162-170 | the unwritten part goes behind what the output buffer holds, and the high-water callback is queued exactly on crossing the mark |
| `Connection.TcpConnection.Enqueue` | netlib/net/TcpConnection.cc:162-174 | the remainder goes to the end of the output buffer and write interest is on |
| `Connection.TcpConnection.BufferRest` | netlib/net/TcpConnection.cc:160-175 | what the kernel did not take is buffered unless there was a fault, with the high-water callback exactly on crossing the mark |
| `Connection.TcpConnection.SendInLoop` | netlib/net/TcpConnection.cc:122-175 | the whole string is taken unless disconnected or faulted, the wire gains exactly what the kernel took, and exactly the callbacks that this calls for are queued; write interest is on exactly while the buffer holds bytes |
| `Connection.TcpConnection.Flushed` | netlib/net/TcpConnection.cc:206-210 | the bytes written leave the buffer in order; interest ends with the last one, when everything taken is on the wire |
| `Connection.TcpConnection.HandleWrite` | netlib/net/TcpConnection.cc:202-226 | partial writes keep the order: exactly what the kernel takes goes from the buffer to the wire; the write side closes exactly when a disconnecting connection has drained its buffer |
| `Connection.TcpConnection.HandleClose` | netlib/net/TcpConnection.cc:192-201 | disconnected, no interest, descriptor out of the kernel set, every other entry kept |
| `Connection.TcpConnection.ConnectDestroyed` | netlib/net/TcpConnection.cc:49-57 | a second removal asks nothing of the kernel; the connection stays consistent if and only if it has no write interest left |
| `Connection.SendBeside` | netlib/net/TcpConnection.cc:122-175 | sending on one of two connections of a loop leaves the other valid and registered as it was |
| `Pipeline.Receiver.Drain` | server/server.cc:87-93 | every queued message is delivered, in order |
| `Pipeline.Receiver.OnReadable` | server/server.cc:83-93 | what was delivered is what all bytes that arrived parse to, whatever the reads |
| `Pipeline.Stream.InOrderDelivery` | netlib/net/TcpConnection.cc:122-226 | absent a fault, messages delivered are a prefix of those sent, and equal them once buffer and wire are drained; needs only what every step of every connection keeps |
| `Pipeline.Stream.Send` | netlib/net/TcpConnection.cc:122-175 | a batch of frames is sent behind the earlier ones for any answer of `write`, and the wire gains exactly what the kernel took |
| `Pipeline.Stream.Writable` | netlib/net/TcpConnection.cc:202-226 | a write event keeps the relation of both ends, and the wire gains exactly what the kernel took |
| `Pipeline.Stream.Deliver` | netlib/net/TcpConnection.cc:176-191 | any next chunk of the wire keeps the prefix property, and completes it once drained |
| `Pipeline.Stream.Establish` | netlib/net/TcpConnection.cc:42-48 | establishing keeps the relation of both ends |
| `Pipeline.Stream.Shutdown` | netlib/net/TcpConnection.cc:71-85 | an idle write side of a connected connection is closed, no other is; one closed here has put the frames of everything sent on the wire |
| `Pipeline.Stream.PeerCloses` | netlib/net/TcpConnection.cc:192-201 | closing keeps the relation of both ends |
| `StreamEvents.ViewIs` | netlib/net/TcpConnection.cc:122-226 | what waits in the output buffer is what was taken and is not on the wire, and there is write interest exactly while something waits |
| `StreamEvents.PossibleIs` | netlib/net/TcpConnection.cc:122-226 | whether an event can happen is in the values alone |
| `StreamEvents.Arrive` | netlib/net/TcpConnection.cc:176-191 | the next bytes on the wire arrive, and what was delivered is what all of them parse to |
| `StreamEvents.Says` | netlib/net/TcpConnection.cc:122-175 | a batch moves the values as a send does |
| `StreamEvents.Writes` | netlib/net/TcpConnection.cc:202-226 | a write event moves the values: the bytes taken go to the wire, and a disconnecting side is shut exactly when the last one goes |
| `StreamEvents.Turns` | netlib/net/TcpConnection.cc:42-85 | establishing, shutting down and closing change the state alone, and shut an idle write side |
| `StreamEvents.Do` | netlib/net/TcpConnection.cc:42-226 | every possible event keeps the connection valid and moves its values exactly: messages sent, bytes taken, bytes on the wire, bytes arrived, messages delivered, state, write side and fault; in the poller nothing changes but its own entry and index |
| `StreamEvents.Push` | netlib/net/TcpConnection.cc:202-226 | one write event can put everything that waits on the wire |
| `StreamEvents.Pull` | netlib/net/Buffer.cc:94-116 | reads of as much as there is, up to 65535 bytes, end with everything arrived |
| `StreamEvents.Finish` | netlib/net/TcpConnection.cc:122-226 | from every state without a fault in which the connection stands, everything sent can be delivered |
| `Loops.Loop.EachIsValid` | netlib/net/Epoller.cc:57-91 | in a consistent loop each connection is valid by itself, so every result about one connection holds for all |
| `Loops.Loop.Step` | netlib/net/TcpConnection.cc:42-226 | an event of one connection touches nothing that the other connections, their interest and objects, or the other channels depend on |
| `Loops.Loop.On` | netlib/net/TcpConnection.cc:42-226 | an event of one connection keeps the whole loop consistent, the kernel refuses nothing, the values of this connection move as the event says, and nothing else moves |
| `Loops.Loop.Open` | netlib/net/TcpServer.cc:30-48 | a new connection on a free descriptor keeps it, starts with nothing sent and takes the descriptor |
| `Loops.Loop.OpenSeen` | netlib/net/TcpServer.cc:30-48 | in values: one connection more, its descriptor in use, and nothing else |
| `Loops.Loop.OpenOther` | netlib/net/EventLoop.cc:20-32 | so does any other channel, such as the one for wakeups, which starts without interest |
| `Loops.Loop.Ask` | netlib/net/EventLoop.cc:140-145 | so does any request for such a channel, its removal included; its mask and index are those asked for, and no other channel's change |
| `Loops.Loop.Unhook` | netlib/net/TcpConnection.cc:49-57 | destroying a connection takes its channel off the poller and leaves every other connection registered as it was |
| `Loops.Loop.Destroy` | netlib/net/TcpServer.cc:53-61 | the connection leaves the loop, its descriptor is free again, and the loop stays consistent |
| `Loops.Loop.DestroySeen` | netlib/net/TcpServer.cc:53-61 | in values: one connection less, its descriptor free, and nothing else |
| `Loops.Loop.AllInOrder` | netlib/net/TcpConnection.cc:122-226 | for every connection without a write fault the messages delivered are a prefix of those sent, and all of them once drained |
| `Loops.Next` | netlib/net/EventLoop.cc:46-53 | any event, possible or not, keeps the loop consistent and moves the values of the loop exactly as it says; an impossible one changes nothing |
| `Loops.Run` | netlib/net/EventLoop.cc:46-53 | over every run of a loop, with connections and channels that come and go: no request is refused, every connection without a write fault delivers in order, completely once drained, and the loop is at the end of a trace that starts empty and moves by exactly the events of the run |
| `Timers.Copy` | netlib/net/TimerQueue.cc:128 | lists a set in its order, every element once |
| `Timers.DueLeaves` | netlib/net/TimerQueue.cc:124-129 | erasing the due range takes exactly the due timers out of the first index |
| `Timers.StaysAwake` | netlib/net/TimerQueue.cc:84-108 | additions and cancellations never make the descriptor late |
| `Timers.EarliestIs` | netlib/net/TimerQueue.cc:35-56 | comparing with the begin of the first index tells whether every active timer is later |
| `Timers.OrderIsUnique` | netlib/net/TimerQueue.cc:121-141 | a set has one listing in time order |
| `Timers.DueIs` | netlib/net/TimerQueue.cc:123-129 | the due range of the first index holds exactly the active timers that are due |
| `Timers.BatchIs` | netlib/net/TimerQueue.cc:121-141 | the batch is the listing, in time order, of the timers due by the table |
| `Timers.TimerQueue.constructor` | netlib/net/TimerQueue.cc:14-18 | no timers, indexes agree |
| `Timers.TimerQueue.NewTimer` | netlib/net/TimerQueue.cc:23-28 | a timer at any free address gets a number never used before |
| `Timers.TimerQueue.Free` | netlib/net/TimerQueue.cc:151 | deletes an allocated timer, never one deleted before |
| `Timers.TimerQueue.InsertTimer` | netlib/net/TimerQueue.cc:35-56 | both indexes gain the timer; reports exactly whether it is the new earliest |
| `Timers.TimerQueue.AddTimerInLoop` | netlib/net/TimerQueue.cc:84-90 | the timer moves from waiting to active, and the descriptor is set to its time exactly if it is the new earliest |
| `Timers.TimerQueue.EraseTimer` | netlib/net/TimerQueue.cc:97-101 | both indexes lose the timer the id was issued for |
| `Timers.TimerQueue.DeleteActive` | netlib/net/TimerQueue.cc:96-102 | the timer is out of both indexes and deleted, the others are untouched |
| `Timers.TimerQueue.CancelInLoop` | netlib/net/TimerQueue.cc:91-108 | an active id deletes its own timer; any other id changes no timer and is remembered only during callbacks |
| `Timers.TimerQueue.TakeDue` | netlib/net/TimerQueue.cc:123-129 | all and only entries due by now leave the first index, in time order |
| `Timers.TimerQueue.EraseActive` | netlib/net/TimerQueue.cc:131-137 | the same timers leave the second index |
| `Timers.TimerQueue.GetExpired` | netlib/net/TimerQueue.cc:121-141 | the batch is exactly the timers due, in time order, and is out of both indexes |
| `Timers.TimerQueue.TakeBatch` | netlib/net/TimerQueue.cc:121-141 | in terms of the table: exactly the timers due become the batch, in time order |
| `Timers.Timer.Restarted` | netlib/net/Timer.cc:21-30 | the new time is the interval after now, cut to whole microseconds; number and interval stay |
| `Timers.TimerQueue.Restart` | netlib/net/Timer.cc:21-30 | a repeating timer is due at now plus its interval |
| `Timers.TimerQueue.Rearm` | netlib/net/TimerQueue.cc:146-149 | a timer of the batch is active again with its new time |
| `Timers.TimerQueue.RearmOne` | netlib/net/TimerQueue.cc:146-149 | a round of the loop that re-arms keeps what earlier rounds settled |
| `Timers.TimerQueue.Drop` | netlib/net/TimerQueue.cc:150-152 | a timer of the batch is deleted, never one deleted before |
| `Timers.TimerQueue.DropOne` | netlib/net/TimerQueue.cc:150-152 | a round that deletes keeps what earlier rounds settled |
| `Timers.TimerQueue.ResetOne` | netlib/net/TimerQueue.cc:144-153 | one round: the timers reset so far are as the table says |
| `Timers.TimerQueue.ResetLoop` | netlib/net/TimerQueue.cc:144-153 | every timer of the batch gets its outcome and no other timer changes: the timers are those of the table after a reset |
| `Timers.TimerQueue.SetNext` | netlib/net/TimerQueue.cc:154-160 | the descriptor is set to the time of the earliest timer exactly if that is valid; it is late afterwards if and only if that time is invalid and it was late already, which cannot be for a clock past the epoch |
| `Timers.TimerQueue.Reset` | netlib/net/TimerQueue.cc:142-161 | repeating timers not cancelled are re-armed, all others of the batch deleted, and the descriptor follows the earliest timer |
| `Timers.TimerQueue.AddTimer` | netlib/net/TimerQueue.cc:23-29 | an addition in the loop thread is active at once, with the time and interval asked for, and sets the descriptor if it is the earliest |
| `Timers.TimerQueue.CancelFromCallback` | netlib/net/TimerQueue.cc:30-33 | a cancellation by a callback deletes its timer if that is active and is remembered otherwise; the batch stays allocated and every other timer is as it was |
| `Timers.TimerQueue.FromThread` | netlib/net/TimerQueue.cc:23-33 | another thread creates exactly the timer asked for, or none, and hands in one closure for it, or the cancellation; no timer changes until the loop calls the closure |
| `Timers.TimerQueue.HandIn` | netlib/net/EventLoop.cc:95-106 | closures wait in the order in which they were handed in, one for each timer that waits to be added |
| `Timers.TimerQueue.RunOp` | netlib/net/TimerQueue.cc:115-117 | one operation of a callback, any address, any id, or of another thread meanwhile, does to the queue what it does to the table: an addition creates the timer asked for |
| `Timers.TimerQueue.RunCallback` | netlib/net/TimerQueue.cc:115-117 | a whole callback: the table after all its operations, and only the timers it cancels are affected |
| `Timers.TimerQueue.RunTimer` | netlib/net/TimerQueue.cc:115-117 | a timer of the batch is still allocated when it runs, so was never deleted, and runs once |
| `Timers.TimerQueue.RunBatch` | netlib/net/TimerQueue.cc:115-117 | the callbacks run in the order of the batch, once each |
| `Timers.TimerQueue.Start` | netlib/net/TimerQueue.cc:111-114 | from the batch to the first callback: the table without the timers due, no cancellations and a descriptor that has fired |
| `Timers.TimerQueue.Finish` | netlib/net/TimerQueue.cc:118-119 | the outcome of the batch is what its callbacks decided |
| `Timers.TimerQueue.HandleRead` | netlib/net/TimerQueue.cc:109-120 | exactly the due timers run, in time order, once each, none of them deleted before; exactly those that repeat and were not cancelled by a callback are active again at now plus interval, the others are deleted; timers not due and not cancelled are as before; the descriptor is set to the earliest valid time; what other threads hand in between the callbacks waits, behind what waited before; all of it is the firing of the table |
| `Timers.TimerQueue.BatchIsNew` | netlib/net/TimerQueue.cc:121-141 | the timers of a batch have numbers of their own, none of them deleted |
| `Timers.TimerQueue.Fate` | netlib/net/TimerQueue.cc:35-161 | every timer ever created is waiting, active in both indexes, in the batch or deleted, and only one of these |
| `Timers.TimerQueue.CancelReachesExactly` | netlib/net/TimerQueue.cc:91-108 | an id in use is found active if and only if its timer neither waits to be added nor is in the batch |
| `Timers.TimerQueue.StaleIdMatchesNothing` | netlib/net/TimerQueue.cc:91-108 | the id of a deleted timer matches no timer, even at the same address |
| `Timers.Call` | netlib/net/TimerQueue.cc:84-108 | calling the oldest closure adds its timer, or deletes the timer of its id if active and else changes no timer, as in the table; every invariant stays |
| `Timers.HistoryFires` | netlib/net/TimerQueue.cc:109-161 | a firing adds no number of a deleted timer to the history of calls, and none of a one-shot timer twice |
| `Timers.Fire` | netlib/net/TimerQueue.cc:109-120 | a firing keeps every invariant, does to the queue what it does to the table, runs exactly the timers due by the table and none deleted before it |
| `Timers.Happen` | netlib/net/TimerQueue.cc:23-120 | every event keeps every invariant and moves the queue as it moves the table; deleted numbers never run again, only firings run callbacks, and exactly one closure is called at a time, the oldest |
| `Timers.Run` | netlib/net/TimerQueue.cc:23-161 | in every run, other threads acting between events and between callbacks, the indexes agree, every timer is in one place, closures are called in the order they were handed in, a timer that does not repeat has run at most once and is deleted then; the descriptor is not late unless the clock was before the epoch, and follows the earliest valid time after a firing even then; timers, closures, descriptor and the callbacks that ran are those of the table after these events |
| `EventLoop.StepKeepsWatch` | netlib/net/EventLoop.cc:39-138 | each step keeps the queue and the quit flag watched by the eventfd or by a thread yet to write |
| `EventLoop.StepKeepsWeakInv` | netlib/net/EventLoop.cc:39-138 | each step, an early push included, keeps the order of functors and the quit flag watched |
| `EventLoop.StepKeepsInv` | netlib/net/EventLoop.cc:39-138 | each atomic step of any thread keeps the invariant |
| `EventLoop.RunKeepsInv` | netlib/net/EventLoop.cc:39-138 | so does every interleaving |
| `EventLoop.ReachableInv` | netlib/net/EventLoop.cc:39-138 | every reachable state satisfies it |
| `EventLoop.NoLostWakeup` | netlib/net/EventLoop.cc:39-138 | about to block with work queued or quit set and nothing to read, some thread is between its push or store and its wakeup |
| `EventLoop.AsleepMeansDone` | netlib/net/EventLoop.cc:46-53 | a loop asleep while the others are idle has run everything |
| `EventLoop.FirstInFirstOut` | netlib/net/EventLoop.cc:95-138 | calls made, calls to come and the queue are the history of pushes, and each thread's order is kept |
| `EventLoop.CallsRunAll` | netlib/net/EventLoop.cc:133-137 | the loop over the functors taken runs them all |
| `EventLoop.WokenLoopRunsAll` | netlib/net/EventLoop.cc:46-53 | one iteration after a wakeup, undisturbed, runs everything queued, nothing twice |
| `EventLoop.IterationRunsAll` | netlib/net/EventLoop.cc:46-53 | in every interleaving everything pushed before the poll of an iteration has run when that iteration ends |
| `EventLoop.EarlyPushWatchedExactly` | netlib/net/EventLoop.cc:95-106 | a push of the owner before `loop` is watched if and only if the eventfd is readable or some thread has yet to write |
| `EventLoop.SwapRestoresInv` | netlib/net/EventLoop.cc:126-132 | over all runs, early pushes included, nothing is lost from the first swap on |
| `EventLoop.UnswappedGrows` | netlib/net/EventLoop.cc:95-132 | without a swap what was pushed early is still queued |
| `EventLoop.StrandedExactly` | netlib/net/EventLoop.cc:39-138 | over all runs, a loop asleep with the others idle has work queued if and only if the owner pushed before `loop` and the queue was never swapped |
| `EventLoop.EarlyPushIsLost` | netlib/net/EventLoop.cc:95-106 | the shortest run that strands a functor |
| `EventLoop.QuitKeptExactly` | netlib/net/EventLoop.cc:39-61 | over all runs the quit flag is set if and only if some call of `quit` has no start of the loop after it |
| `EventLoop.ExitedForGood` | netlib/net/EventLoop.cc:46-55 | after the end of the loop nothing runs any more, whatever other threads do |
| `EventLoop.ExitedExactly` | netlib/net/EventLoop.cc:39-61 | over all runs the loop has ended if and only if it tested its guard while some call of `quit` stood, which stands still |
| `EventLoop.GuardDecides` | netlib/net/EventLoop.cc:46 | at its guard the loop ends if some call of `quit` stands and polls again if none does |
| `EventLoop.HistoryDetermines` | netlib/net/EventLoop.cc:39-138 | over all runs the queue, the calls made with their tags, the eventfd, the quit flag and the place of every thread are those of the history of steps |
| `EventLoop.NobodyIsStuck` | netlib/net/EventLoop.cc:39-138 | a loop that has not ended always has a step of its own, and other threads are never kept waiting |
| `EventLoop.QuitEnds` | netlib/net/EventLoop.cc:46-61 | told to quit, a started loop ends by its own steps after exactly the calls that are due |
| `EventLoop.QueueGains` | netlib/net/EventLoop.cc:95-132 | between swaps the queue gains exactly what is pushed, in order |
| `EventLoop.ExitedRanExactly` | netlib/net/EventLoop.cc:46-138 | over all runs a loop that has ended ran exactly what was pushed before its last swap; what was pushed since stays queued for good |
| `WorkerPool.StepKeepsOrder` | base/threadPool.h:35-38 | tasks leave from the front and enter at the back |
| `WorkerPool.StepConserves` | base/threadPool.h:29-42 | each step keeps the number of times a task was taken equal to the times it returned plus the workers running it |
| `WorkerPool.LookConserves` | base/threadPool.h:31-39 | taking a task moves it from the queue to one worker |
| `WorkerPool.FinishConserves` | base/threadPool.h:40-41 | returning moves it from the worker to the finished ones |
| `WorkerPool.StepKeepsWatch` | base/threadPool.h:76-82 | work queued always has an awake worker or a notify to come |
| `WorkerPool.NotifyLeavesSomeoneAwake` | base/threadPool.h:82 | whichever worker is picked, one is awake |
| `WorkerPool.StepKeepsExits` | base/threadPool.h:33-34 | workers leave only after the flag is cleared and never leave work without a worker |
| `WorkerPool.StepKeepsInv` | base/threadPool.h:23-84 | each atomic step keeps the invariant |
| `WorkerPool.RunKeepsInv` | base/threadPool.h:23-84 | every interleaving keeps the invariant |
| `WorkerPool.ReachableInv` | base/threadPool.h:23-84 | every reachable state satisfies it |
| `WorkerPool.NoStrandedTask` | base/threadPool.h:23-84 | no task waits while all workers wait or are gone and no notify is on its way |
| `WorkerPool.FirstInFirstOut` | base/threadPool.h:35-38 | tasks taken and tasks queued are the tasks enqueued, in order |
| `WorkerPool.HistoryDetermines` | base/threadPool.h:23-84 | over all runs the tasks enqueued, taken, queued and returned from and the place of every thread are those of the history of steps |
| `WorkerPool.NobodyIsStuck` | base/threadPool.h:23-84 | a thread may enqueue while the pool runs, a notify wakes any worker that waits, and a worker that is not gone always has a step |
| `WorkerPool.AllTasksRunOnce` | base/threadPool.h:46-58 | when all workers are gone every task enqueued has run exactly once |
| `WorkerPool.JoinEnds` | base/threadPool.h:46-58 | after notify_all every run of worker steps that enqueue nothing is at most as long as the work remaining, and a worker that is not gone always has such a step |
| `WorkerPool.EndingStep` | base/threadPool.h:29-42 | each such step lessens the work remaining, and nobody waits again |
| `WorkerPool.JoinReached` | base/threadPool.h:46-58 | there is such a run to the end, where all workers are gone and every task enqueued has run once |
| `WorkerPool.AllGone` | base/threadPool.h:46-58 | with all workers gone every task was taken and has returned once |
| `WorkerPool.NoWorkersNoWork` | base/threadPool.h:23-26 | a pool of no workers takes nothing |
| `Decimal.ToStringIsCanonical` | server/redisCmd.cc:271 | `to_string` of a count has no leading zero and `stoi` reads it back |
| `Decimal.CanonicalIsToString` | server/redisCmd.cc:302 | every digit string without leading zero is the text of the number it reads as |
| `Decimal.FieldInjectiveInIndex` | server/redisCmd.cc:271 | messages of one sender have different fields |
| `Decimal.CollisionExtends` | server/redisCmd.cc:271 | a shared field makes the longer name an extension of the shorter |
| `Decimal.ExtensionCollides` | server/redisCmd.cc:271 | an extension by a number shares a field |
| `Decimal.FieldsCollideExactly` | server/redisCmd.cc:271 | two senders share a field if and only if one name is the other followed by a number without leading zero |
| `Decimal.FieldsApart` | server/redisCmd.cc:271 | otherwise the encoding of sender and index is injective |
| `Store.LremRemoves` | server/redisCmd.cc:203 | LREM with count 0 removes every copy, and every other entry is there as often as before |
| `Store.LremKeepsOrder` | server/redisCmd.cc:203 | and the others keep their order |
| `Store.FirstMatch` | server/redisCmd.cc:195-236 | the entry `verifyUser` acts on is the first that matches |
| `Friendship.DropItemAsks` | server/redisCmd.cc:203 | removing an entry removes that request only |
| `Friendship.RequestsMeet` | server/redisCmd.cc:509-527 | a request that meets one makes friends and leaves none pending |
| `Friendship.RequestLeft` | server/handleData.cc:306-311 | a request left with a stranger who did not ask keeps the invariant |
| `Friendship.AskFriendKeeps` | server/handleData.cc:287-321 | asking keeps symmetry, one-way requests and none between friends |
| `Friendship.AskFriendDecides` | server/handleData.cc:295-317 | asking makes friends if and only if they were or the other one had asked; otherwise the request waits |
| `Friendship.AskedThenAnswered` | server/redisCmd.cc:199-210 | after a request and its answer both are friends if and only if it was accepted, and no request is left |
| `Friendship.VerifyUserKeeps` | server/redisCmd.cc:183-238 | verifying keeps the invariant unless a friend verification accepts an invitation |
| `Friendship.UntaggedFieldExactly` | server/redisCmd.cc:223-229 | friend lists get an untagged field if and only if that happens |
| `Friendship.DeleteUserKeeps` | server/redisCmd.cc:119-136 | deleting keeps the invariant and no friend list mentions the account |
| `Friendship.DelFriendKeeps` | server/redisCmd.cc:352-372 | unfriending keeps the invariant and finds a count on both sides |
| `Friendship.RegisterKeeps` | server/handleData.cc:159-178 | registering keeps the invariant |
| `Friendship.InviteKeeps` | server/handleData.cc:341-369 | inviting keeps the invariant |
| `Friendship.MessageKeeps` | server/handleData.cc:24-62 | a message between friends keeps the invariant |
| `Friendship.SymmetryExactly` | server/handleData.cc:24-62 | friend lists stay symmetric if and only if the message was not stored, was to oneself or came from a friend |
| `Groups.JoinKeeps` | server/redisCmd.cc:392-400 | joining updates both hashes; an owner joins a group without members only |
| `Groups.JoinAllKeeps` | server/redisCmd.cc:407-409 | so does the loop over the members |
| `Groups.CreateGroupKeeps` | server/handleData.cc:604-615 | creating keeps the inclusion and the single owner |
| `Groups.JoinAllMembers` | server/redisCmd.cc:407-409 | the loop makes members of exactly the accounts named |
| `Groups.CreateGroupMembers` | server/redisCmd.cc:401-410 | a new group has exactly the owner and the members named, as far as they are accounts; the owner keeps the rank if and only if not named as a member too |
| `Groups.InvitedThenAnswered` | server/redisCmd.cc:223-234 | after an invitation and its answer the invited is a member with the group listed if and only if it was accepted, and it is gone |
| `Groups.AskedThenAdmitted` | server/redisCmd.cc:211-222 | after a wish to join and its answer the user is a member with the group listed if and only if admitted, and it is gone |
| `Groups.VerifyUserKeepsGroups` | server/redisCmd.cc:223-229 | accepting an invitation keeps them unless it was taken for a friend request |
| `Groups.VerifyStores` | server/redisCmd.cc:223-229 | which of the two group hashes a verification writes, and when it crosses |
| `Groups.MembersListedExactly` | server/redisCmd.cc:223-229 | in that case the inclusion survives if and only if the group was listed already |
| `Groups.VerifyGroupKeeps` | server/redisCmd.cc:211-222 | admitting a user keeps them |
| `Groups.DeleteUserLeavesGroups` | server/redisCmd.cc:137-153 | a deleted account is a member of nothing and its own groups are gone |
| `Groups.RemoveMemberKeeps` | server/redisCmd.cc:500-504 | removing a member keeps them |
| `Groups.LeaveGroupKeeps` | server/handleData.cc:616-651 | leaving keeps them; an owner dissolves the group |
| `Groups.CompareLevelIsRankOrder` | base/tool.cc:27-41 | comparing the texts of two ranks compares the ranks |
| `Groups.CmdKeeps` | server/handleData.cc:504-530 | a command keeps both |
| `Groups.CmdRespectsRank` | server/handleData.cc:504-530 | a member's command changes nobody of the same or a higher rank |
| `Groups.RemovalExactly` | server/handleData.cc:511-513 | a removal takes effect if and only if the target ranks below the actor or the actor is no member |
| `Groups.RankChangeExactly` | server/handleData.cc:514-519 | between members a rank changes exactly when the owner acts on somebody who is not one, to admin or to member |
| `Groups.OpenGroupStaysRead` | server/handleData.cc:702-711 | opening a group clears the count and stops the counting, closing it starts it again |
| `Groups.GroupMessageFindsCounts` | server/handleData.cc:737-748 | the count to increment exists and grows by one |
| `Groups.GroupMessageKeeps` | server/handleData.cc:717-752 | a group message keeps the invariant |
| `Groups.OpenGroupKeeps` | server/redisCmd.cc:461-476 | opening a group or its history keeps it |
| `Groups.DeletionListedExactly` | server/redisCmd.cc:137-153 | a deletion keeps every listed group a group of the user if and only if the account owns none with another member |
| `Groups.HistoryListedExactly` | server/redisCmd.cc:461-476 | asking for a history does so if and only if the one asking is a member |
| `Mailbox.FieldsDiffer` | server/redisCmd.cc:271 | with safe names the field encoding is injective |
| `Mailbox.QueueFrame` | server/redisCmd.cc:279-299 | a queue depends on its count and its own fields |
| `Mailbox.StoreAppends` | server/redisCmd.cc:258-278 | a stored message goes to the end of the sender's queue |
| `Mailbox.StoreSpares` | server/redisCmd.cc:258-278 | and leaves every other queue |
| `Mailbox.StoreRefines` | server/redisCmd.cc:258-278 | storing is appending to one queue of the abstract mailbox |
| `Mailbox.WithoutMailSpares` | server/redisCmd.cc:359-361 | deleting the fields of one sender spares those of the others |
| `Mailbox.OpenChatRefines` | server/redisCmd.cc:279-299 | opening a chat empties exactly one queue |
| `Mailbox.DelFriendRefines` | server/redisCmd.cc:352-372 | unfriending removes exactly two queues |
| `Mailbox.DeleteUserRefines` | server/redisCmd.cc:119-136 | deleting an account removes exactly the queues at it and of it |
| `Mailbox.BefriendRefines` | server/redisCmd.cc:160-165 | new friends start with empty queues |
| `ChatRuns.NamesNeverCross` | server/redisCmd.cc:183-238 | with group names kept apart a friend verification meets friend requests only |
| `ChatRuns.Frames` | server/handleData.cc:11-153 | every request writes to its own hashes only |
| `ChatRuns.FriendsKept` | server/handleData.cc:11-153 | every request keeps friendship safety |
| `ChatRuns.GroupsKept` | server/handleData.cc:11-153 | every request keeps group safety |
| `ChatRuns.NamesKept` | server/handleData.cc:287-370 | pending entries keep naming people and groups |
| `ChatRuns.MailKept` | server/handleData.cc:11-153 | every request does to the mailbox hashes what its abstract step does to the queues |
| `ChatRuns.StepKeepsInv` | server/handleData.cc:11-153 | every request keeps all invariants and refines its step |
| `ChatRuns.RunRefines` | server/handleData.cc:11-153 | every run keeps all invariants and refines the machine of queues |
| `ChatRuns.StepConserves` | server/redisCmd.cc:258-299 | each step conserves the messages of each queue, in order |
| `ChatRuns.RunConserves` | server/redisCmd.cc:258-299 | so does every run |
| `ChatRuns.OnlyReadingTakes` | server/redisCmd.cc:279-299 | while two users stay friends only reading takes messages out |
| `ChatRuns.EveryMessageOnceInOrder` | server/redisCmd.cc:258-314 | over every run from an empty server the messages stored for a user by a sender are, in order, those taken out followed by those waiting; without a clearing other than reading they are those delivered followed by those waiting |
| `ChatRuns.NothingIsMissing` | server/redisCmd.cc:258-372 | in every reachable store both friends have a count, every unread message its field, every member a count to increment |
| `ChatRuns.DeletedIsGone` | server/redisCmd.cc:119-153 | after a deletion no hash mentions the account as user, friend, member or recipient |
| `ChatRuns.ListedExactly` | server/handleData.cc:11-153 | every request keeps every listed group a group of the user, if and only if it neither deletes an owner with other members nor asks for a history without being one |
| `ChatRuns.BlackedIsRefused` | server/handleData.cc:27-34 | over every run in which a user stays on the blacklist nothing of theirs is stored, and the next message is stored once they are off it |
| `ChatRuns.LiveMessagesAreNotStored` | server/handleData.cc:46-53 | over every run in which both sides keep their chat open, nothing they send each other while online is stored |
| `ChatRuns.LeavingStores` | server/handleData.cc:46-53 | a message is not stored while both have the chat open, and is as soon as the reader has left |
| `ChatRuns.TalkAside` | server/handleData.cc:11-153 | blacklists and open chats change by their own requests only |
| `GroupCounts.CountStep` | server/handleData.cc:11-153 | every request resets a count that is left in a list, or adds one to it for a missed message, or leaves it |
| `GroupCounts.CountIsMissedSince` | server/handleData.cc:717-752 | over every run from any store a count is the number of messages of other members sent since the user last joined the group, opened it or asked for its history, while a member without it open, on top of the first count if none of this happened |
| `GroupCounts.CountFromEmpty` | server/handleData.cc:717-752 | from an empty server it is exactly that number |
| `GroupCounts.OpenMissesNothing` | server/handleData.cc:702-752 | over every run in which a user keeps the group open nothing is missed |
| `Histories.EveryEntryIsLawful` | server/handleData.cc:11-153 | for every request and every entry of every hash, list and flag: it is there afterwards if and only if the request makes it, or it was there and the request does not take it |
| `Histories.StandsExactly` | server/handleData.cc:11-153 | over every history, from any store and for any names, an entry is there if and only if it was made and not taken away since, or was there and never taken away |
| `Histories.StandsFromEmpty` | server/handleData.cc:11-153 | from an empty server: if and only if it was made and not taken away since |
| `Histories.MessageStoredExactly` | server/handleData.cc:24-62 | after any allowed history a message to a friend is added to the queue of the friend unless, by the history, the friend has the sender blacklisted, or is online while both have the chat open; every other queue is as before |
| `Histories.LeavingSpares` | server/handleData.cc:616-651 | when a member who is no owner leaves, memberships, ranks and listings of all others are as before; an unconfirmed request changes nothing |
| `Histories.GroupKeepsOwner` | server/handleData.cc:504-651 | over every allowed history a group keeps its owner until the owner leaves, is deleted, is removed or is accepted into it again |
| `Histories.CountLaw` | server/redisCmd.cc:258-299 | every request clears the unread count of a friend, adds one stored message to it, or leaves it |
| `Histories.UnreadIsAddedSince` | server/redisCmd.cc:258-299 | over every history an unread count is the number of messages stored since it was last cleared |
| `Histories.PendingOrder` | server/redisCmd.cc:166-238 | a request puts what it makes in front of a pending list, takes what it answers, and keeps the rest in order |
| `Histories.WishOrder` | server/redisCmd.cc:188-222 | a wish to join comes first, an answered one goes with all its copies, and the others keep their order |
| `Witnesses.CrossingReached` | server/redisCmd.cc:223-229 | a run of allowed requests leads to a friend verification that would accept an invitation |
| `Witnesses.FriendsReached` | server/handleData.cc:287-321 | a request and its answer are a run |
| `Witnesses.ListedIsNotMember` | server/redisCmd.cc:144-145 | allowed requests lead to a store where deleting the owner of a group of two leaves it listed by the other, who is in no group then |
| `Witnesses.StrangerReached` | server/handleData.cc:24-62 | allowed requests lead to two accounts for which a message of a stranger is stored and makes friend lists asymmetric |
| `Witnesses.DeletionAfterMessage` | server/redisCmd.cc:352-372 | after a stored message the receiver's deletion of the sender fails half-way if and only if the sender was a stranger |
| `Witnesses.OutsiderReached` | server/handleData.cc:504-530 | allowed requests lead to a store where an account outside a group removes its owner |
| `Witnesses.SentIs` | server/redisCmd.cc:258-278 | sending n messages makes the count n and all their fields present |
| `Witnesses.FilledIsConsistent` | server/redisCmd.cc:258-278 | in the store of the collision every counted message is there and friend lists agree |
| `Witnesses.CollisionTouches` | server/redisCmd.cc:271 | a shared field lets one sender overwrite the other's message, in a store that allowed requests reach |
| `Witnesses.SafeNamesExactly` | server/redisCmd.cc:258-278 | over all stores that are reached, no message of one friend touches the queue of another if and only if neither name extends the other by a number |
| `ChatServer.HGetAll` | server/redisCmd.cc:124-128 | the fields of one hash, each once, in any order |
| `ChatServer.Server.StoreMessages` | server/redisCmd.cc:258-278 | reads the count, stores the field, stores the new count |
| `ChatServer.Server.OnMessage` | server/handleData.cc:24-62 | stores exactly the messages that are neither refused nor read live by both |
| `ChatServer.Server.DropMail` | server/redisCmd.cc:359-361 | the loop deletes exactly the numbered fields of one sender |
| `ChatServer.Server.SendOfflineMeg` | server/redisCmd.cc:279-299 | the loop delivers the queue, oldest first, and deletes what it delivers, up to the first message that is missing; it fails exactly when one is |
| `ChatServer.Server.SendHisOfflineMeg` | server/redisCmd.cc:335-351 | shows exactly one's own unread messages, up to the first that is missing, and changes nothing |
| `ChatServer.Server.Chat` | server/handleData.cc:485-503 | opening a chat: refused for strangers, failed exactly when a message is missing, with what was delivered until then deleted and one's own messages shown up to a missing one; otherwise both queues shown and one's own emptied |
| `ChatServer.Server.DeleteFriend` | server/redisCmd.cc:352-372 | refused for strangers, failed half-way exactly when the friend does not list us, otherwise both mailboxes and both entries are gone |
| `ChatServer.Server.LookMess` | server/redisCmd.cc:509-527 | finds a waiting request if there is one, makes friends and removes it |
| `ChatServer.Server.AddAllFriend` | server/handleData.cc:293-321 | the guards in front of a friend request |
| `ChatServer.Server.Verify` | server/redisCmd.cc:183-238 | accepts or refuses the first entry for the name; the answer says which kind it was, whether it was accepted, and is zero exactly when there is none |
| `ChatServer.Server.VerifyJoin` | server/redisCmd.cc:188-222 | the same on the list of a group, with the exact answer |
| `ChatServer.Server.Join` | server/redisCmd.cc:392-400 | both hashes, for accounts only |
| `ChatServer.Server.NewGroup` | server/redisCmd.cc:401-410 | the owner and then every member join; refused exactly when the group exists |
| `ChatServer.Server.DropFromLists` | server/redisCmd.cc:427-430 | the loop takes the group out of the list of every member |
| `ChatServer.Server.DelPerson` | server/redisCmd.cc:418-439 | an owner dissolves the group, anyone else leaves it |
| `ChatServer.Server.DeleteGroup` | server/handleData.cc:616-651 | the guards in front of leaving |
| `ChatServer.Server.CountMembers` | server/handleData.cc:728-751 | the loop increments exactly the counts of absent members, up to the first that is missing |
| `ChatServer.Server.OnGroupMessage` | server/handleData.cc:717-759 | refused for outsiders; fails exactly when an absent member has no count, after the counts of the members answered before |
| `ChatServer.Server.OnCmd` | server/handleData.cc:504-530 | the guards in front of removal and change of rank |
| `ChatServer.Server.Unlist` | server/redisCmd.cc:128-134 | the loop takes the account out of the lists of exactly the users its fields name, up to a field that cannot be cut |
| `ChatServer.Server.DeleteFriends` | server/redisCmd.cc:124-136 | no friend entry of the account is left; fails exactly at an untagged field of fewer than five characters |
| `ChatServer.Server.FriendFields` | server/redisCmd.cc:124-127 | all fields of a friend list, tagged or not, in any order |
| `ChatServer.Server.Quit` | server/redisCmd.cc:142-150 | the loop dissolves owned groups and leaves the others |
| `ChatServer.Server.QuitGroups` | server/redisCmd.cc:137-152 | no membership found in the list is left |
| `ChatServer.Server.DeleteAccount` | server/redisCmd.cc:119-153 | the whole deletion, command by command; fails half-way exactly when an untagged field cannot be cut |
| `ChatServer.Server.OnRegister` | server/handleData.cc:159-178 | the guards in front of a new account |
| `ChatServer.Server.AddAllGroup` | server/handleData.cc:322-340 | the guards in front of a wish to join |
| `ChatServer.Server.AddAllInvitation` | server/handleData.cc:341-369 | the guards in front of an invitation |
| `ChatServer.Server.OnBlack` | server/handleData.cc:595-602 | only friends are blacklisted |
| `ChatServer.Server.OnUnblack` | server/handleData.cc:584-594 | only a listed name is taken off |
| `ChatServer.Server.GChat` | server/handleData.cc:702-716 | only a listed group is opened |
| `Dispatch.ServeChat` | server/handleData.cc:485-503 | in a store where nothing is missing opening a chat cannot fail and hands over exactly the unread queue |
| `Dispatch.ServePrivate` | server/handleData.cc:24-119 | nor can any request about accounts, friends or messages |
| `Dispatch.ServeAnswer` | server/handleData.cc:433-454 | answers do what they stand for |
| `Dispatch.ServeGroup` | server/handleData.cc:120-137 | no request about groups fails |
| `Dispatch.Serve` | server/handleData.cc:11-153 | one allowed request through the handlers: none fails half-way, all invariants hold, and who opens a chat receives exactly the unread queue |
| `Dispatch.ServeAll` | server/handleData.cc:11-153 | a list of requests through the handlers: the store is that of the run, and what the openings of each chat received is what the run delivers |
| `Dispatch.EveryStoredMessageIsReceived` | server/redisCmd.cc:258-299 | from an empty server, what was stored for a user by a sender is, in order, what the handlers handed over followed by what is unread, if only reading emptied the queue |

## Left out

- ChatServer.Server.Chat: the two history queries, which change nothing here, are not modelled.
- ChatRuns.EveryMessageOnceInOrder: takes handlers as atomic steps; interleaving of handlers inside Redis is not modelled.
- Connection.TcpConnection.SendInLoop: asks for sizes that pass the assertion of line 161; `Connection.SizeGuardExact` says which these are.
- Connection.TcpConnection.ConnectDestroyed: says nothing about bytes still buffered, which are lost with the connection.
- Timers.Timer.Restarted: intervals are reals, so the rounding of `double` is not modelled.
- WorkerPool.JoinEnds: tasks that enqueue tasks forever keep the pool alive; the bound is for steps that enqueue nothing.
- The list `read:` of read messages, the lists `regp:` and `back:`, and what is sent back to clients besides mailbox contents.
- The total of unread counts reported at login, login itself, passwords, verification codes and mail.
- Overflow of 32-bit counts, of 64-bit sizes and of 64-bit timestamps.
- `retrieveUntil` and the capacity query of the buffer, and the space-trimming helper of the splitter.
- The poll loop of the poller, its event array and the dispatch of ready events to callbacks.
- `forceClose`, the connector with its retries, the acceptor, and the table of online users.
- Wiring of the timer queue to a loop, its destructor, and reading of the timer descriptor.
- The file transfer server, the client with its user interface, JSON, regular expressions and logging.
