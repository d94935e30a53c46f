# Real-time multiplayer game server — a Dafny model

This project models the core of a C# real-time multiplayer game template: a TCP game
server with one broadcast room, its load-test client, the legacy socket session
underneath both, and the hub-based variant (room registry and client receiver).

- **Framing** (`framing.dfy`): the receive loop shared by the server's `ClientSession`
  and the load client's `ServerSession`.
  - A frame is a 4-byte little-endian signed length followed by that many payload bytes.
  - A length that is not in 1..131072 is a fault, and the session disconnects.
  - A partial frame waits for more bytes.
  - `ScanFrom` is the specification of that loop; `ReceiveFrames` is the loop itself.
- **Legacy packet framing** (`packet_framing.dfy`): `PacketSession.OnRecv` with its
  2-byte unsigned size header, as written and corrected (see "## Findings").
- **Socket session** (`session_core.dfy`): the legacy `Session`.
  - The whole state is one `SessionState` value: send queue, pending flag, batch in
    flight, disconnected flag, and so on.
  - Each asynchronous socket callback is a total function on that value.
  - The `Session` class's methods are proved to follow those functions.
  - An invariant is proved to be preserved by every callback. It says that the batches
    transmitted, followed by the queue, are exactly the segments handed to `Send`, in order.
- **Game server** (`game_server.dfy`):
  - how a client session reacts to each packet;
  - the room's `Enter`, `Leave`, `Move`, `Broadcast` and `Flush`;
  - the session manager's id generation with 32-bit wrap-around.

  The repository has two trees, `Server/` and `Server1/`. `Server/Server`'s
  `ClientSession.OnDisconnected` calls its own tree's `SessionManager`, whose file is
  not part of this model. The model pairs it with `Server1/Server/Session/SessionManager.cs`
  instead: the two trees are merged into one game server.
- **Load client** (`load_client.dfy`): what the load client logs for each server
  packet, as `LogLine` values. The log is that of a debug build, so the `LogDebug`
  lines are included.
- **Jobs** (`job_queue.dfy`, `job_timer.dfy`):
  - the room's job queue;
  - the tick-based job timer, a FIFO scan that rotates the first job that is not
    yet due to the back.
- **Connector** (`connector.dfy`): the bounded connect-and-retry loop.
- **Hub variant** (`rooms.dfy`, `hub_client.dfy`): `RoomState`, `RoomRegistry`,
  `PlayerState` and the client's `ClientReceiver` player map.
- **Supporting modules**:
  - `seqs.dfy`: `Flatten`, `Count`, `Repeat`, `RemoveFirst`, `CountTrue`.
  - `numerics.dfy`: 32-bit wrap-around, and little-endian 16-bit and 32-bit fields.
  - `messages.dfy`: the decoded packets.
  - `contracts.dfy`: `Vector3` and `PlayerInfo`.
  - `network_helper.dfy`: the fatal-socket-error classification.
  - `optional.dfy`: `Option`.

Where the prose description of the system and the code disagree, the model follows the code:
- **The receive buffer.** It is described as a `peekFrame`/`consume` ring buffer. The
  code frames inside `OnRecv`: it loops over the received bytes and returns how many
  it consumed. That loop is what is modelled.
- **The job timer.** It is described as time-ordered, with a min-heap as the intended
  fix. The code scans a FIFO queue:
  - it stops at the first job that is not due;
  - it puts that job at the back of the queue.

  The model keeps that behaviour, and `DueJobBehindLateJobWaits` states its effect.
- **`Enter`.** It is described as taking an initial position. The code's `Enter(session)`
  announces the session's current position, and so does the model.

## Model

| member | source | states |
|---|---|---|
| Numerics.Wrap32 | Server1/Server/Session/SessionManager.cs:24 | the wrapped value agrees with the exact value modulo 2^32, and equals it when the exact value fits in 32 bits |
| Numerics.UnsignedRoundTrip | Server/Server/Session/ClientSession.cs:36 | decoding the k-byte little-endian encoding of any u < 256^k gives back u |
| Numerics.UnsignedBytes | Server/Server/Session/ClientSession.cs:36 | encoding the value read from any bytes gives back those bytes, so every byte pattern is a value |
| Numerics.Int32RoundTrip | Server/Server/Session/ClientSession.cs:36 | the signed 32-bit length field read at the position where a length was written, with any bytes before or after it, is that length |
| Numerics.Int32Bytes | Server/Server/Session/ClientSession.cs:36 | any 4 bytes read as a length give a 32-bit value whose encoding is those 4 bytes |
| Numerics.UInt16RoundTrip | Server1/ServerCore/Session.cs:28 | the unsigned 16-bit size field reads back the size that was written, with any bytes before or after it |
| Framing.LengthAt | Server/Server/Session/ClientSession.cs:36 | the length prefix read at any position is a 32-bit value |
| Framing.ScanFrom | Server/Server/Session/ClientSession.cs:29-51 | the receive loop never stops before where it started or beyond the buffer |
| Framing.ReceiveFrames | Server/Server/Session/ClientSession.cs:29-51 | the loop hands out exactly the frames of the scan, in order, and they concatenate to the consumed prefix; every frame has a valid length header matching its size; a fault is reported exactly when the scan faults |
| Framing.ScanConsumes | Server/Server/Session/ClientSession.cs:43-51 | the frames handed out are exactly the consumed bytes: nothing skipped, nothing duplicated |
| Framing.ScanFramesWellFormed | Server/Server/Session/ClientSession.cs:37-48 | every frame handed to HandlePacket is a 4-byte length in 1..131072 followed by that many bytes |
| Framing.ScanStopReason | Server/Server/Session/ClientSession.cs:34-44 | the loop stops only on a fault (a complete header with a length outside 1..131072), on fewer than 4 bytes, or on an incomplete frame |
| Framing.ScanAppend | Server/Server/Session/ClientSession.cs:34-47 | bytes arriving later never change the frames already found or a fault already detected; the scan of the longer buffer continues from where the shorter one stopped |
| Framing.ScanResume | Server/Server/Session/ClientSession.cs:29-51 | after a receive without a fault, scanning the unconsumed bytes together with the next bytes gives the same frames as scanning the whole stream at once |
| Framing.EncodeFrameIsFrame | Server/Server/Session/ClientSession.cs:37-48 | a payload of valid length, prefixed with its length, is a frame whose payload is the original |
| Framing.EncodeAllFrames | Server/Server/Session/ClientSession.cs:37-48 | encoding a list of payloads gives well-formed frames whose payloads are the list |
| Framing.ScanFrames | Server/Server/Session/ClientSession.cs:29-51 | well-formed frames sent back to back, followed by any bytes, are handed out first, exactly and in order |
| Framing.ScanEncoded | Server/Server/Session/ClientSession.cs:29-51 | round trip: encoded payloads followed by any bytes are handed back as those frames, whose payloads are the original payloads |
| Framing.OversizedFrameRejected | Server/Server/Session/ClientSession.cs:37-42 | a declared length of 200000 is a fault at once: no frame is handed out and nothing is consumed |
| PacketFraming.OnRecvAsWritten | Server1/ServerCore/Session.cs:16-45 | the legacy loop as written, on buffers where it terminates, hands out the packets and consumed length of the as-written step function |
| PacketFraming.Step | Server1/ServerCore/Session.cs:22-33 | one turn of the loop hands out exactly the first `size` bytes, never more than remain |
| PacketFraming.AsWritten | Server1/ServerCore/Session.cs:16-45 | the loop as written never reports more bytes processed than the buffer holds |
| PacketFraming.ZeroSizeHeaderStalls | Server1/ServerCore/Session.cs:26-41 | a header whose size field is 0 yields an empty packet and an unchanged buffer, so the loop as written never terminates on it |
| PacketFraming.SplitPackets | Server1/ServerCore/Session.cs:16-45 | the corrected loop never consumes more than the buffer |
| PacketFraming.OnRecv | Server1/ServerCore/Session.cs:16-45 | the corrected loop returns exactly the packets, consumed length and fault of SplitPackets |
| PacketFraming.SplitConsumes | Server1/ServerCore/Session.cs:32-41 | the corrected loop hands out exactly the consumed bytes, as packets at least a header long whose size field is their length |
| PacketFraming.SplitStopReason | Server1/ServerCore/Session.cs:22-29 | the corrected loop stops only on fewer than 2 bytes, on an incomplete packet, or on a fault (a size below the header size) |
| PacketFraming.CorrectionAgrees | Server1/ServerCore/Session.cs:16-45 | wherever the corrected loop reports no fault, the loop as written terminates and returns the same packets and length |
| PacketFraming.PacketFirst | Server1/ServerCore/Session.cs:26-41 | a well-formed packet in front of any bytes is handed out first, and the rest is split on its own |
| PacketFraming.SplitSentPackets | Server1/ServerCore/Session.cs:16-45 | round trip: well-formed packets sent back to back, then any bytes, come back exactly as sent |
| SessionCore.Initial | Server1/ServerCore/Session.cs:52-68 | a new session satisfies the session invariant, is connected and has been handed nothing |
| SessionCore.TearDown | Server1/ServerCore/Session.cs:124-139 | the first Disconnect empties the queue and the batch, clears the pending flag, closes the socket, detaches handlers and calls OnDisconnected once; a later Disconnect changes nothing; the invariant is kept |
| SessionCore.RegisterSendSpec | Server1/ServerCore/Session.cs:143-179 | with nothing queued or once disconnected, only the pending flag clears; otherwise the whole queue becomes the next batch in flight, or the session disconnects when SendAsync throws |
| SessionCore.SendCompletedSpec | Server1/ServerCore/Session.cs:181-213 | a failed or zero-byte completion disconnects; a success with an empty queue clears the batch and returns to Idle; with more queued, the whole queue is sent as the next batch |
| SessionCore.Gate | Server1/ServerCore/Session.cs:102-113 | the gate appends the segments to what was handed to Send and consumes nothing; while a send is pending it only queues them |
| SessionCore.SendSpec | Server1/ServerCore/Session.cs:102-122 | sending nothing changes nothing; otherwise the segments are appended to what has been handed to Send |
| SessionCore.RegisterRecvSpec | Server1/ServerCore/Session.cs:215-235 | a disconnected session posts no receive; a connected one posts at least one; the consumed lengths only grow |
| SessionCore.RecvCompletedSpec | Server1/ServerCore/Session.cs:237-277 | a receive that fails, returns 0 bytes, fails to move a cursor, or whose handler returns a negative length, a length larger than the data size, or throws, disconnects; otherwise the handler's length is consumed next |
| SessionCore.StartSpec | Server1/ServerCore/Session.cs:92-100 | Start attaches the socket and handlers and, on a connected session, posts a receive |
| SessionCore.RegisterSendKeepsInv | Server1/ServerCore/Session.cs:143-179 | RegisterSend, called with the flag just set to Pending, restores the session invariant |
| SessionCore.SendCompletedKeepsInv | Server1/ServerCore/Session.cs:181-213 | every send completion keeps the session invariant |
| SessionCore.SendKeepsInv | Server1/ServerCore/Session.cs:102-122 | Send keeps the session invariant |
| SessionCore.RegisterRecvKeepsInv | Server1/ServerCore/Session.cs:215-235 | posting receives keeps the session invariant |
| SessionCore.RecvCompletedKeepsInv | Server1/ServerCore/Session.cs:237-277 | every receive completion keeps the session invariant |
| SessionCore.TransmittedInSendOrder | Server1/ServerCore/Session.cs:102-179 | while connected, the bytes transmitted are a prefix of the segments handed to Send, in order, with no loss or duplication |
| SessionCore.Session.constructor | Server1/ServerCore/Session.cs:52-68 | a new session is in the initial state |
| SessionCore.Session.Start | Server1/ServerCore/Session.cs:92-100 | Start moves the session as StartSpec says and keeps the invariant |
| SessionCore.Session.Clear | Server1/ServerCore/Session.cs:75-90 | Clear drains the send queue, drops the batch, sets the flag to Idle and detaches handlers, changing nothing else |
| SessionCore.Session.Disconnect | Server1/ServerCore/Session.cs:124-139 | Disconnect moves the session as TearDown says and leaves it in the session invariant |
| SessionCore.Session.Send | Server1/ServerCore/Session.cs:102-113 | Send(list) moves the session as SendSpec says and keeps the invariant |
| SessionCore.Session.Enqueue | Server1/ServerCore/Session.cs:106-110 | every segment joins the back of the send queue and the record of what was handed to Send, in order |
| SessionCore.Session.SendOne | Server1/ServerCore/Session.cs:115-122 | Send(segment) is Send of a one-segment list and keeps the invariant |
| SessionCore.Session.RegisterSend | Server1/ServerCore/Session.cs:143-179 | RegisterSend, called with the send flag just taken, moves the session as RegisterSendSpec says and re-establishes the session invariant |
| SessionCore.Session.TakeAll | Server1/ServerCore/Session.cs:154-157 | the drain loop takes the whole queue, in order, and leaves it empty |
| SessionCore.Session.OnSendCompleted | Server1/ServerCore/Session.cs:181-213 | the send completion moves the session as SendCompletedSpec says and keeps the session invariant |
| SessionCore.Session.RegisterRecv | Server1/ServerCore/Session.cs:215-235 | RegisterRecv moves the session as RegisterRecvSpec says and keeps the session invariant |
| SessionCore.Session.OnRecvCompleted | Server1/ServerCore/Session.cs:237-277 | the receive completion moves the session as RecvCompletedSpec says and keeps the session invariant |
| NetworkHelper.IsFatalError | Server/ServerCore/NetworkHelper.cs:15-20 | an error is fatal exactly when it is none of Success, IOPending and WouldBlock |
| JobQueues.Failures | Server/ServerCore/JobQueue.cs:47-60 | no more jobs fail than ran |
| JobQueues.JobQueue.constructor | Server/ServerCore/JobQueue.cs:26-34 | a new queue is empty and not disposed |
| JobQueues.JobQueue.Push | Server/ServerCore/JobQueue.cs:36-45 | a job is appended unless it is null or the queue is disposed, in which case nothing changes |
| JobQueues.JobQueue.TakeNext | Server/ServerCore/JobQueue.cs:47-60 | the worker takes the oldest job, or nothing from an empty queue |
| JobQueues.JobQueue.Drain | Server/ServerCore/JobQueue.cs:47-60 | the worker runs every queued job in push order, counts the ones that throw, and leaves the queue empty |
| JobQueues.JobQueue.Dispose | Server/ServerCore/JobQueue.cs:70-79 | Dispose marks the queue disposed without losing jobs, and a second Dispose changes nothing |
| JobTimers.CompareTo | Server/Server/JobTimer.cs:24-27 | the comparison is the 32-bit wrapped difference of the ticks, exact when it does not overflow |
| JobTimers.CompareToOrdersEarlierFirst | Server/Server/JobTimer.cs:24-27 | without overflow, an element compares positive exactly when it is due earlier, zero exactly at the same tick, and the comparison is antisymmetric |
| JobTimers.Deadline | Server/Server/JobTimer.cs:51-63 | the execution tick is now plus the delay, wrapping at 32 bits |
| JobTimers.ReadyPrefix | Server/Server/JobTimer.cs:72-84 | the ready prefix is all due, and the job after it is not yet due |
| JobTimers.CollectSplitsAtFirstLateJob | Server/Server/JobTimer.cs:72-84 | one scan runs exactly the due jobs in front of the first job that is not due; that job goes to the back behind the rest |
| JobTimers.CollectKeepsJobs | Server/Server/JobTimer.cs:72-84 | a scan loses and duplicates no job: ready plus kept is the old queue as a multiset |
| JobTimers.AllDueAllCollected | Server/Server/JobTimer.cs:72-84 | when every job is due, all run in push order and the queue empties |
| JobTimers.DueJobBehindLateJobWaits | Server/Server/JobTimer.cs:72-84 | a due job queued behind a job that is not due does not run this tick; the two swap places |
| JobTimers.WrappedDeadlineIsDueAtOnce | Server/Server/JobTimer.cs:51-63 | for every tick and non-negative delay whose sum passes the largest 32-bit value, the deadline wraps to that sum minus 2^32, which is negative and earlier than the current tick, so the job is due at once |
| JobTimers.Actions | Server/Server/JobTimer.cs:87-98 | one action per ready job |
| JobTimers.JobTimer.RunAll | Server/Server/JobTimer.cs:86-98 | the ready jobs' actions run in order; every job an action pushes joins the back of the queue as it runs; the executed count is the number that did not throw |
| JobTimers.PushedStep | Server/Server/JobTimer.cs:86-98 | running one more action appends exactly the jobs it pushes, after those of the earlier actions |
| JobTimers.JobTimer.constructor | Server/Server/JobTimer.cs:39-43 | a new timer has no jobs |
| JobTimers.JobTimer.Push | Server/Server/JobTimer.cs:51-63 | a non-null action is appended with deadline now plus the delay; a null one is ignored |
| JobTimers.JobTimer.CollectReady | Server/Server/JobTimer.cs:72-84 | the collection loop takes the ready prefix and leaves the queue as Collect says |
| JobTimers.JobTimer.ProcessJobs | Server/Server/JobTimer.cs:65-104 | a tick runs exactly the due prefix's actions in order and counts those that did not throw; it leaves the rotated remainder queued, followed by the jobs the actions pushed, which are not run in the same tick |
| JobTimers.Collect | Server/Server/JobTimer.cs:72-84 | the ready jobs and the leftover queue together have the old queue's length (that they hold the same jobs is `CollectKeepsJobs`) |
| Connector.ConnectSingle | Server/ServerCore/Connector.cs:52-112 | the connect loop returns the success and attempt count of SingleRun |
| Connector.SingleFrom | Server/ServerCore/Connector.cs:59-111 | the loop reports success only when the attempt it stopped at established the session |
| Connector.SingleRun | Server/ServerCore/Connector.cs:52-112 | no more attempts are made than the retry limit allows, and a limit below 1 makes none and fails |
| Connector.SingleFromBounds | Server/ServerCore/Connector.cs:59-111 | the loop makes at most maxRetries attempts, and none when maxRetries is not positive |
| Connector.SingleFromSuccess | Server/ServerCore/Connector.cs:74-83 | a success is an established attempt preceded only by retryable failures |
| Connector.FirstDecisiveAttemptWins | Server/ServerCore/Connector.cs:59-108 | the first attempt that is not retried decides the result and the attempt count |
| Connector.AllAttemptsFail | Server/ServerCore/Connector.cs:93-111 | when every attempt fails and may be retried, the result is failure after exactly maxRetries attempts |
| Connector.Results | Server/ServerCore/Connector.cs:29-32 | one connection result per requested connection, none for a negative count |
| Connector.ConnectAsync | Server/ServerCore/Connector.cs:14-50 | the success count is the number of connections that succeeded, at most the number requested |
| GameServer.React | Server/Server/Session/ClientSession.cs:53-100 | a MoveReq with a position, and nothing else, is answered with the matching MoveRes; CMove with a position becomes exactly the room job that moves this session to that position, CLeaveGame exactly the job that takes this session out of its current room, and nothing else becomes a room job; everything else is ignored |
| GameServer.Jobs | Server/Server/Session/ClientSession.cs:61-80 | frames yield at most one room job each, all for this session |
| GameServer.Replies | Server/Server/Session/ClientSession.cs:81-96 | frames yield at most one direct reply each, all MoveRes |
| GameServer.OneEffectPerFrame | Server/Server/Session/ClientSession.cs:53-100 | each frame causes at most one effect: a room job or a reply, never both |
| GameServer.ClientSession.Send | Server/Server/Session/ClientSession.cs:92 | a sent message is appended to what the session has sent |
| GameServer.ClientSession.constructor | Server1/Server/Session/SessionManager.cs:26-27 | a new client session has its id, no room, nothing sent and no disconnect request |
| GameServer.ClientSession.OnConnected | Server/Server/Session/ClientSession.cs:22-26 | a connected session enqueues its own entry into the lobby room |
| GameServer.ClientSession.HandlePacket | Server/Server/Session/ClientSession.cs:53-100 | a packet has exactly the effect React assigns it: a reply sent, a job pushed on the room, or nothing |
| GameServer.ClientSession.OnRecv | Server/Server/Session/ClientSession.cs:29-51 | the receive returns the scan's consumed length, sends the frames' replies and pushes their room jobs in frame order, and requests a disconnect exactly on a fault |
| GameServer.ClientSession.HandleAll | Server/Server/Session/ClientSession.cs:45-48 | handling frames in order sends their replies and pushes their jobs in order |
| GameServer.ClientSession.OnDisconnected | Server/Server/Session/ClientSession.cs:102-112 | a closed session leaves the manager, which keeps its invariant, id counter and issued ids; it enqueues its leave on its room unless that room's queue is disposed, in which case the queue is unchanged; it forgets the room |
| GameServer.PlayerList | Server/Server/GameRoom.cs:43-49 | the player list has one entry per member |
| GameServer.PlayerListAt | Server/Server/GameRoom.cs:43-49 | entry i carries member i's id and position, and is marked self exactly for the joining session |
| GameServer.GameRoom.constructor | Server/Server/GameRoom.cs:12-14 | a new room has no members, nothing pending and an empty job queue |
| GameServer.GameRoom.Push | Server/Server/GameRoom.cs:16 | a room job is appended to the room's queue unless the queue is disposed |
| GameServer.GameRoom.Broadcast | Server/Server/GameRoom.cs:27-35 | a broadcast is appended to the pending list |
| GameServer.GameRoom.Flush | Server/Server/GameRoom.cs:18-25 | a flush with pending messages sends them all, in order, to every member (once per membership), and empties the list; with none, nobody receives anything |
| GameServer.GameRoom.Enter | Server/Server/GameRoom.cs:37-54 | the joiner is added, sent the player list of all members including itself, and its entry at its current position is broadcast |
| GameServer.GameRoom.Leave | Server/Server/GameRoom.cs:56-61 | the first membership of the session is removed and its leave is broadcast |
| GameServer.GameRoom.Move | Server/Server/GameRoom.cs:63-71 | the session's position becomes the new one and the move is broadcast |
| GameServer.GameRoom.Run | Server/Server/Session/ClientSession.cs:61-80 | an enter job makes the session a member, sends it the member list and queues the enter broadcast; a leave job removes the first occurrence of the session and queues the leave broadcast; leaving or moving in the current room does the same on that room, a move also setting the position and queueing the move broadcast; a current-room job on a session without a room does nothing; only a move changes the session's position, only an enter sends to the session or sets its room, and a room the job does not act on keeps its members and pending list |
| GameServer.FlushStep | Server/Server/GameRoom.cs:18-25 | sending the batch to one more member adds one copy for that member only |
| GameServer.SessionManager.constructor | Server1/Server/Session/SessionManager.cs:18-20 | a new manager has no sessions and counter 0 |
| GameServer.SessionManager.Generate | Server1/Server/Session/SessionManager.cs:22-39 | the counter advances with 32-bit wrap-around; a new session with that id is registered unless the id is still in use, in which case null is returned and nothing is registered; before the counter wraps, the id is the number of calls so far |
| GameServer.SessionManager.Find | Server1/Server/Session/SessionManager.cs:41-45 | a session is found exactly when its id is registered |
| GameServer.SessionManager.Remove | Server1/Server/Session/SessionManager.cs:47-53 | the session's id is unregistered; removing an unknown id changes nothing |
| GameServer.SessionManager.ActiveSessionCount | Server1/Server/Session/SessionManager.cs:58 | the count is the number of registered ids |
| GameServer.SessionManager.ForEachSession | Server1/Server/Session/SessionManager.cs:63-76 | every registered session is visited exactly once, and failures are counted without stopping the walk |
| LoadClient.EntryLines | Server/DummyClient/ServerSession.cs:104-127 | at most one log line per list entry, all of them entry lines |
| LoadClient.DescribeAll | Server/DummyClient/ServerSession.cs:35-52 | the lines logged for a run of received frames, each frame's receive line before its packet's lines, never report a connect, a disconnect or an invalid length |
| LoadClient.ReceivedInOrder | Server/DummyClient/ServerSession.cs:49 | the receive lines of a run of frames report exactly those frames, each once, in order |
| LoadClient.FaultLines | Server/DummyClient/ServerSession.cs:40-44 | the invalid-length error line is written exactly when the loop stops on a fault, and carries a length outside 1..131072 with at least 4 bytes remaining |
| LoadClient.Describe | Server/DummyClient/ServerSession.cs:56-147 | an unparsable packet logs nothing, a client-bound kind the client does not handle logs one warning, and no packet logs a connect, a disconnect, a receive or an invalid length |
| LoadClient.ServerListFullyLogged | Server/DummyClient/ServerSession.cs:104-127 | a player list built by the server is logged in full: one line per member, in order, with id, self mark and position |
| LoadClient.ServerSession.constructor | Server/DummyClient/ServerSession.cs:11 | a new client session has an empty log and no disconnect request |
| LoadClient.ServerSession.OnConnected | Server/DummyClient/ServerSession.cs:13-16 | connecting logs one Connected line |
| LoadClient.ServerSession.OnDisconnected | Server/DummyClient/ServerSession.cs:18-21 | disconnecting logs one Disconnected line |
| LoadClient.ServerSession.OnRecv | Server/DummyClient/ServerSession.cs:32-54 | the receive returns the scan's consumed length, logs the frames in order, then the invalid-length error on a fault, and requests a disconnect exactly on a fault |
| LoadClient.ServerSession.HandleAll | Server/DummyClient/ServerSession.cs:48-51 | each frame's receive line and then its packet's lines are logged, frame by frame in order |
| LoadClient.ServerSession.HandlePacket | Server/DummyClient/ServerSession.cs:56-147 | a packet appends exactly the lines Describe gives it |
| LoadClient.ServerSession.LogEntries | Server/DummyClient/ServerSession.cs:111-124 | the entries loop logs exactly EntryLines of the list |
| Rooms.PlayerState.constructor | Game.Server/Rooms/PlayerState.cs:7-12 | a player starts with its id, name and initial position |
| Rooms.PlayerState.UpdatePosition | Game.Server/Rooms/PlayerState.cs:18-21 | the position becomes the new one |
| Rooms.RoomState.constructor | Game.Server/Rooms/RoomState.cs:14-17 | a new room has its name and no players |
| Rooms.RoomState.AddPlayer | Game.Server/Rooms/RoomState.cs:21-27 | a fresh player gets the next id (32-bit wrap-around), the name and the position, and is stored under its id; before the counter wraps, the id is new |
| Rooms.RoomState.TryRemove | Game.Server/Rooms/RoomState.cs:29-32 | removal succeeds exactly when the id is present and returns that player; otherwise nothing changes |
| Rooms.RoomState.TryGet | Game.Server/Rooms/RoomState.cs:34-37 | lookup succeeds exactly when the id is present and returns that player |
| Rooms.RoomState.Snapshot | Game.Server/Rooms/RoomState.cs:39-42 | the snapshot lists every player exactly once and nothing else |
| Rooms.RoomRegistry.constructor | Game.Server/Rooms/RoomRegistry.cs:7 | a new registry has no rooms |
| Rooms.RoomRegistry.GetOrAdd | Game.Server/Rooms/RoomRegistry.cs:9-10 | an existing room is returned unchanged; otherwise a fresh empty room with that name is stored and returned |
| Rooms.DistinctNames | Game.Server/Rooms/RoomRegistry.cs:9-10 | rooms with different names are different rooms |
| HubClient.Apply | DummyClient/ClientReceiver.cs:23-48 | an event changes only its own player's entry: joined and moved set it, left removes it |
| HubClient.EventsOnDifferentPlayersCommute | DummyClient/ClientReceiver.cs:23-48 | events about different players can be applied in either order |
| HubClient.ClientReceiver.constructor | DummyClient/ClientReceiver.cs:10-16 | a new receiver knows no players |
| HubClient.ClientReceiver.SetSelf | DummyClient/ClientReceiver.cs:18-21 | the own id is recorded |
| HubClient.ClientReceiver.OnPlayerJoined | DummyClient/ClientReceiver.cs:23-27 | the player is stored under its id |
| HubClient.ClientReceiver.OnPlayerLeft | DummyClient/ClientReceiver.cs:29-33 | the player is removed |
| HubClient.ClientReceiver.OnPlayerMoved | DummyClient/ClientReceiver.cs:35-48 | the player's entry is updated, and the move is an acknowledgement exactly when it is about this client |
| Seqs.FlattenAppend | Server1/ServerCore/Session.cs:154-157 | concatenating batches commutes with flattening |
| Seqs.RemoveFirst | Server/Server/GameRoom.cs:58 | removing a member never lengthens the membership |
| Seqs.RemoveFirstSpec | Server/Server/GameRoom.cs:58 | removing a member drops exactly one occurrence when present and nothing otherwise |
| Seqs.CountTrueBounds | Server/ServerCore/Connector.cs:34-49 | the success count is at most the number of attempts, equals it exactly when all succeed, and is 0 exactly when all fail |

## Left out

- Sockets, `SocketAsyncEventArgs` and the operating system are not modelled. Each
  asynchronous call's outcome is an input (`SendStart`, `RecvStart`, `Completion`,
  `Received`).
- Threads, locks and `Interlocked` are not modelled. Every operation runs atomically,
  one after another.
- `ConcurrentDictionary` and `ConcurrentQueue` are plain maps and sequences.
- `Connector.ConnectAsync` launches its connections concurrently. The model runs them
  one after another; the count is the same.
- The FlatBuffers codec is an opaque `Parser` from frame bytes to a decoded message.
  `Server/Generated/FlatMessageHelper.cs` is not part of this model.
- Packets that a session sends are recorded as messages in its `sent` list, not as bytes.
- Only the load client's log is modelled, as `LogLine` values rather than formatted
  strings. The log calls of the server's `ClientSession`, the legacy `Session`, the job
  queue and job timer, the connector and the session manager are not modelled. Job
  failures are counted instead.
- `RecvBuffer` and `SendBuffer` are not modelled; the bytes of one receive are an input.
- Floating-point coordinates are reals.
- The tick clock is a parameter.
- A job's action is an opaque value. Whether it throws, and which timer jobs it pushes
  (with their deadlines), are inputs. The room's jobs
  are `RoomJob` values that `GameRoom.Run` carries out.
- An exception thrown by an `OnDisconnected` handler is not modelled.
- `JobTimer.ProcessJobs` is modelled as one atomic tick. The source starts it from a
  periodic `System.Threading.Timer` with no guard against overlap, so two callbacks can
  interleave on the shared queue; overlapping ticks are not modelled. `JobTimer.Flush`
  and `JobTimer.Dispose` are not modelled either.
- `Server/ServerCore/Session.cs`, `Server/ServerCore/Listener.cs` and
  `Server/DummyClient/SessionManager.cs` are not part of this model. The server-side
  framing loops above sit on top of them.
- The Unity clients (`Client/`, `Game.Unity/`), the SignalR hub (`Game.Server/Hubs/GameHub.cs`)
  and the program entry points are not part of this model.
- GameServer.ClientSession.OnDisconnected: the session leaves the room only by the
  enqueued `LeaveRoom` job. The job queue's worker is modelled by `JobQueue.Drain` and
  `GameRoom.Run`, not scheduled.
- PacketFraming.OnRecvAsWritten: it is stated only for buffers on which the loop as
  written terminates. On the others it does not return (see "## Findings").
- Connector.ConnectSingle: the delay between retries is not modelled.

## Findings

| source | as written | input that shows it | evidently intended | confidence | as-written member | corrected member |
|---|---|---|---|---|---|---|
| Server1/ServerCore/Session.cs:26-41 | the loop accepts any 16-bit size that fits in the buffer. A size of 0 hands out an empty packet and does not advance, so the loop never terminates. A size of 1 hands out a packet shorter than its own header. | a receive buffer holding `[0x00, 0x00]` | a size smaller than the 2-byte header is a protocol error that stops the loop | not executed | PacketFraming.ZeroSizeHeaderStalls | PacketFraming.SplitPackets |
