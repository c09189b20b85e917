# OPUS provenance backend: a verified model of its core

OPUS records the provenance of running programs. An interposition library is
preloaded into every launched process and reports each intercepted POSIX call
to a backend over a socket. The backend turns the reports into a provenance
graph. This project models the sequential core of that backend and of its
command-line client, and proves properties of the model:

- **The event-chain splicer** (`pvm/posix/functions.py`). Every open
  descriptor ("local") anchors a list of I/O events, oldest first. The graph
  mirrors each list twice over: a `PREV_EVENT` relationship runs from every
  event to the one before it, and an `IO_EVENTS` relationship runs from the
  anchor to the newest event. `process_aggregate_functions` places each
  reported event into the list of the nearest anchor opened before it and
  rewrites those relationships. `load_cache` rebuilds the lists from the
  graph. The module also holds the argument mappings of the action table,
  the function-name dispatch table (`FuncController`) and the two
  open-mode parsers.
- **Message reading and connection bookkeeping** (`production.py`).
  `SockReader` is a two-phase non-blocking reader (header, then payload)
  with a partial-read buffer. `MultiCommunicationManager` keeps an
  fd→reader map and a pid→descriptor-list map, and synthesises a disconnect
  message when a pid's last connection closes. `SocketProducer` answers the
  `ps` and `detach` commands.
- **Command-channel framing** (`cc_utils.py`). A four-byte length prefix
  followed by the payload, the accumulating receive loop, and the error
  mapping of a request.
- **The launch environment** (`opusctl/cmds/process.py`). The `LD_PRELOAD`
  update and the `OPUS_*` variables a launched program receives.
- **The query-method registry** (`query/client_query.py`).

Files, one module per component:

- `common.dfy`: `Option`, `Result`, bytes, and sequence helpers.
- `mappings.dfy` (`PosixArgs`): call messages and argument mappings.
- `modes.dfy`: the open-mode parsers.
- `func_controller.dfy`: the dispatch table.
- `chains.dfy`: the splicer on values, with its proofs.
- `chain_store.dfy`: the store object, proved against `chains.dfy`.
- `sock_reader.dfy` (`ReaderSpec`, `SockRead`): the reader.
- `manager_spec.dfy` (`ManagerSpec`): the manager and the command handling as
  functions of an abstract state.
- `comm_manager.dfy` (`ConnIndex`, `CommManager`): the manager and the
  producer, proved against `manager_spec.dfy`.
- `cc_framing.dfy`: the command channel.
- `launch_env.dfy`: the launch environment.
- `client_query.dfy`: the query registry.

Sockets, the graph database and the configuration are modelled on values:

- A socket is a script of what each `recv` finds.
- The graph holds only the relationships the splicer touches.
- Configuration values and `path_normalise` are parameters.

A misplaced event is not dropped: `event_from_msg`
(`pvm/posix/functions.py:161`) runs before the anchor search, so the event
node is created anyway, without any relationship. `Chains.PlaceNone` and
`ChainStore.Db.Misplace` state this.

## Model

| member | source | states |
|---|---|---|
| PosixArgs.ParseMapping | src/backend/opus/pvm/posix/functions.py:32-46 | raises exactly when the mapping list is too short or a `msg_arg` is missing; `msg_arg` gives the call argument; `msg_field` gives None exactly when the field is unset; `ret_val` gives a decimal that reads back as the return value; only `msg_field` or an unknown kind gives None |
| PosixArgs.NatToString | src/backend/opus/pvm/posix/functions.py:43-44 | Python's `str` on a natural number is a non-empty string of decimal digits |
| PosixArgs.IntToString | src/backend/opus/pvm/posix/functions.py:43-44 | Python's `str` on the return value: non-empty, starting with a minus sign exactly when the value is negative, digits everywhere else; `IntRoundTrip` reads it back |
| PosixArgs.NatRoundTrip | src/backend/opus/pvm/posix/functions.py:43-44 | the decimal rendering of a natural number reads back as that number |
| PosixArgs.IntRoundTrip | src/backend/opus/pvm/posix/functions.py:43-44 | the rendered return value parses back to the same integer, negative ones included |
| PosixArgs.GetFdFromMsg | src/backend/opus/pvm/posix/functions.py:109-112 | KeyError when the call has no table entry or the entry has no `filedes` mapping; otherwise the `filedes` mapping applied to the message |
| PosixArgs.BuildArgSet | src/backend/opus/pvm/posix/functions.py:52-58 | the loop of the wrapped action succeeds exactly when every mapping resolves, and then binds every action argument to its mapping's value; a failure is the error of some failing mapping |
| FuncControl.FuncController.constructor | src/backend/opus/pvm/posix/functions.py:62-65 | both tables start empty |
| FuncControl.FuncController.Register | src/backend/opus/pvm/posix/functions.py:80-83 | stores the handler under the name, replacing any earlier one; nothing else changes |
| FuncControl.FuncController.Dec | src/backend/opus/pvm/posix/functions.py:96-103 | registers the implementation under the name and returns it unchanged |
| FuncControl.FuncController.Load | src/backend/opus/pvm/posix/functions.py:67-78 | an unreadable file re-raises IOError and changes nothing; otherwise the action table is kept, every entry is registered wrapped, entries not in the file stay, and no other name appears |
| FuncControl.FuncController.Call | src/backend/opus/pvm/posix/functions.py:49-94 | MissingMappingError exactly for an unregistered name; a decorated entry runs on the message; a wrapped entry succeeds exactly when all its mappings resolve and then runs its action on the argument set |
| FuncControl.LoadThenDecorate | src/backend/opus/pvm/posix/functions.py:96-106 | a decorator registration after the table is loaded replaces the table's entry of that name, keeps all other loaded entries, and is what `call` then runs |
| Modes.ParseFmode | src/backend/opus/pvm/posix/functions.py:580-587 | RaW exactly when the mode holds `r+`, `w+` or `a+`; READ exactly when it holds neither `w` nor `a` and is not RaW |
| Modes.FmodeMonotone | src/backend/opus/pvm/posix/functions.py:580-587 | extending a mode string never lowers the link state |
| Modes.ParseOmode | src/backend/opus/pvm/posix/functions.py:590-597 | RaW exactly when the `O_RDWR` bit is set; WRITE exactly when it is clear and `O_WRONLY` is set |
| Modes.OmodeIgnoresHigherBits | src/backend/opus/pvm/posix/functions.py:590-597 | flags above the two access-mode bits never change the result |
| Chains.FindIndex | src/backend/opus/pvm/posix/functions.py:163-182 | the search index: every key before it is at most the probe, the key at it exceeds the probe, and on sorted keys so does every later one |
| Chains.SpliceIndex | src/backend/opus/pvm/posix/functions.py:175-182 | the insertion index is within the list (0 for an empty list) |
| Chains.Spliced | src/backend/opus/pvm/posix/functions.py:180-211 | the list after the splice is one longer |
| Chains.SpliceGraph | src/backend/opus/pvm/posix/functions.py:175-211 | no `before_time` changes; every node that had an outgoing `PREV_EVENT` still has one (the middle branch redirects `c[i]`'s from `c[i-1]` to the new event); when the newest event changes (empty-list and append branches, the latter replacing the anchor's old edge), the anchor's `IO_EVENTS` points at the new event, and otherwise `IO_EVENTS` is untouched |
| Chains.Invalidates | src/backend/opus/pvm/posix/functions.py:176-201 | the cache entry is invalidated exactly in the empty-list and append branches, where the event lands at the end of the list |
| Chains.SpliceLastEvent | src/backend/opus/pvm/posix/functions.py:176-201 | only the anchor's LAST_EVENT entry can go, and it goes exactly when the branch invalidates it |
| Chains.SpliceKeepsOrder | src/backend/opus/pvm/posix/functions.py:180-211 | the event lands exactly at the search index, the other events keep their relative order, and a list sorted by `before_time` stays sorted |
| Chains.SplicePreservesMirror | src/backend/opus/pvm/posix/functions.py:175-211 | after every branch the `PREV_EVENT` edges of the list are exactly newer→older neighbours, the oldest has none, no outside edge enters the list, and `IO_EVENTS` points at the newest event |
| Chains.MirrorFirstEvent | src/backend/opus/pvm/posix/functions.py:175-180 | the empty-list branch (a new `IO_EVENTS` edge) yields the mirrored one-event list |
| Chains.MirrorPrepend | src/backend/opus/pvm/posix/functions.py:184-187 | the prepend branch (only `c[0]→evt` created) keeps the mirror |
| Chains.MirrorAppend | src/backend/opus/pvm/posix/functions.py:188-201 | the append branch (old `IO_EVENTS` deleted, `evt→c[end-1]` and `anchor→evt` created) keeps the mirror |
| Chains.MirrorMiddle | src/backend/opus/pvm/posix/functions.py:202-211 | the middle branch (`c[i]`'s edge replaced by `c[i]→evt` and `evt→c[i-1]`) keeps the mirror |
| Chains.LinkedPrepend | src/backend/opus/pvm/posix/functions.py:184-187 | the neighbour edges after a prepend |
| Chains.LinkedAppend | src/backend/opus/pvm/posix/functions.py:194-201 | the neighbour edges after an append |
| Chains.LinkedMiddle | src/backend/opus/pvm/posix/functions.py:203-211 | the neighbour edges after a mid-list insertion |
| Chains.SpliceTouchesOnlyChain | src/backend/opus/pvm/posix/functions.py:184-209 | the splice changes `PREV_EVENT` only at events of the list and the new event, `IO_EVENTS` only at the anchor, and no `before_time` |
| Chains.SpliceFrame | src/backend/opus/pvm/posix/functions.py:175-211 | every other list disjoint from the spliced one stays mirrored |
| Chains.InvalidationTracksNewest | src/backend/opus/pvm/posix/functions.py:175-201 | the anchor's LAST_EVENT entry is dropped exactly when the list's newest event changes |
| Chains.SpliceAllSorted | src/backend/opus/pvm/posix/functions.py:146-211 | splicing events in any arrival order gives a list sorted by `before_time` |
| Chains.SpliceAllPermutes | src/backend/opus/pvm/posix/functions.py:146-211 | the list holds exactly the arrived events, each once |
| Chains.InsertKeepsSorted | src/backend/opus/pvm/posix/functions.py:182-211 | inserting at the sorted insertion point keeps keys sorted |
| Chains.Candidates | src/backend/opus/pvm/posix/functions.py:126-132 | the query's locals are exactly the locals of the process with the descriptor's name |
| Chains.InsertByMono | src/backend/opus/pvm/posix/functions.py:132 | one insertion step of the `ORDER BY`: adds the local, keeps the multiset |
| Chains.InsertByMonoSorted | src/backend/opus/pvm/posix/functions.py:132 | the insertion step keeps the order by `mono_time` |
| Chains.SortByMono | src/backend/opus/pvm/posix/functions.py:132 | `ORDER BY l.mono_time`: a permutation sorted by `mono_time` |
| Chains.QueryLocals | src/backend/opus/pvm/posix/functions.py:126-132 | the query result is ordered by `mono_time` and holds only the resource's locals of the process; `QueryLocalsAre` adds that it holds all of them |
| Chains.QueryLocalsAre | src/backend/opus/pvm/posix/functions.py:126-134 | the index lists exactly the resource's locals, ascending by `mono_time` |
| Chains.QueryLocalsInStore | src/backend/opus/pvm/posix/functions.py:126-132 | every listed local is a store local of the resource |
| Chains.Target | src/backend/opus/pvm/posix/functions.py:163-173 | the chosen anchor is one of the store's locals |
| Chains.TargetIsNearestBelow | src/backend/opus/pvm/posix/functions.py:163-173 | the chosen anchor was opened no later than the event and after every other such local; there is none exactly when every local was opened after the event |
| Chains.PathFrom | src/backend/opus/pvm/posix/functions.py:128-131 | the `PREV_EVENT*` path starts at the given node and is never empty |
| Chains.PathReversesPrefix | src/backend/opus/pvm/posix/functions.py:128-141 | along a mirrored list, the path from an event is the reversed prefix ending at it |
| Chains.LoadedChainReverses | src/backend/opus/pvm/posix/functions.py:136-141 | of `LoadedChain`: a row without nodes gives an empty list; otherwise the list is as long as the row and, reversed, gives back the row's nodes, as the insert-at-front loop leaves them |
| Chains.LoadRoundTrip | src/backend/opus/pvm/posix/functions.py:136-142 | `load_cache`'s insert-at-front of a row's nodes rebuilds exactly the list the graph mirrors, empty when there is no `IO_EVENTS` edge |
| Chains.AddEventKeepsChains | src/backend/opus/pvm/posix/functions.py:161 | a node created with the next id is fresh and disturbs no list |
| Chains.AddEvent | src/backend/opus/pvm/posix/functions.py:161 | creating the event node adds no relationship, gives the node its `before_time`, and keeps every other node's |
| Chains.SpliceKeepsChains | src/backend/opus/pvm/posix/functions.py:173-211 | a splice keeps every list mirrored and sorted, and the lists pairwise disjoint |
| Chains.SpliceKeepsBelow | src/backend/opus/pvm/posix/functions.py:184-209 | the splice adds no edge to a node with an unused id |
| Chains.Place | src/backend/opus/pvm/posix/functions.py:161-211 | placing an event keeps the set of anchors |
| Chains.PlaceNone | src/backend/opus/pvm/posix/functions.py:161-170 | without an anchor the event is misplaced: its node is created, and nothing else changes |
| Chains.PlaceSome | src/backend/opus/pvm/posix/functions.py:161-211 | with an anchor the event is spliced into its list at the search index, the graph and LAST_EVENT cache change as the branch says |
| Chains.Step | src/backend/opus/pvm/posix/functions.py:148-211 | one message keeps the set of anchors |
| Chains.StepPlaces | src/backend/opus/pvm/posix/functions.py:151-173 | a message whose descriptor resolves is placed at the nearest anchor for its `begin_time` |
| Chains.StepKeepsChains | src/backend/opus/pvm/posix/functions.py:148-211 | every message keeps all lists mirrored, sorted and disjoint; a misplaced one changes no relationship, no list and no cache entry |
| Chains.Run | src/backend/opus/pvm/posix/functions.py:148-211 | the batch keeps the set of anchors |
| Chains.RunKeepsChains | src/backend/opus/pvm/posix/functions.py:146-211 | the whole batch keeps the invariant |
| Chains.RunAdvance | src/backend/opus/pvm/posix/functions.py:148-170 | a raising message ends the batch with the outcomes so far; a misplaced one continues with the next |
| Chains.FdChain.constructor | src/backend/opus/pvm/posix/functions.py:137-138 | a new list object for a local starts empty |
| Chains.StoreLoads | src/backend/opus/pvm/posix/functions.py:136-142 | every local's list is what `load_cache` rebuilds |
| Chains.SpliceKeepsStore | src/backend/opus/pvm/posix/functions.py:173-211 | a splice keeps the store consistent |
| ChainStore.LoadRow | src/backend/opus/pvm/posix/functions.py:137-141 | the in-place insert loop builds the row's list oldest first |
| ChainStore.Db.constructor | src/backend/opus/pvm/posix/functions.py:115-143 | an empty store with no caches |
| ChainStore.Db.NewEvent | src/backend/opus/pvm/posix/functions.py:161 | a fresh event node with the next id and its `before_time`, and nothing else changed |
| ChainStore.Db.SpliceBranches | src/backend/opus/pvm/posix/functions.py:175-209 | the relationship updates of the four branches are `SpliceGraph`, the cache invalidation is `SpliceLastEvent` |
| ChainStore.Db.Splice | src/backend/opus/pvm/posix/functions.py:173-211 | the list object changes as `Spliced`, the graph as `SpliceGraph`, and the store stays valid |
| ChainStore.Db.SpliceList | src/backend/opus/pvm/posix/functions.py:175-211 | the graph, cache and list-object updates of one splice |
| ChainStore.Db.LoadCache | src/backend/opus/pvm/posix/functions.py:115-143 | sets the clock, then returns one fresh distinct list object per queried local, in query order, each holding what the graph gives |
| ChainStore.Db.LoadedIndex | src/backend/opus/pvm/posix/functions.py:155-159 | a loaded index holds each anchor's true list |
| ChainStore.Db.ChainIndex | src/backend/opus/pvm/posix/functions.py:155-159 | the cached or freshly loaded index lists the resource's locals in query order, each with its true list |
| ChainStore.Db.AnchorList | src/backend/opus/pvm/posix/functions.py:163-173 | the list found through the index is that of the nearest anchor below the event, none exactly when there is no such anchor |
| ChainStore.Db.SpliceNewEvent | src/backend/opus/pvm/posix/functions.py:161-211 | creating and splicing the event is `Place` with the anchor |
| ChainStore.Db.Misplace | src/backend/opus/pvm/posix/functions.py:161-170 | a misplaced event is `Place` without an anchor |
| ChainStore.Db.PlaceEvent | src/backend/opus/pvm/posix/functions.py:155-211 | the rest of the iteration is `Place` at the nearest anchor |
| ChainStore.Db.ProcessMessage | src/backend/opus/pvm/posix/functions.py:148-211 | one iteration in place is `Step` on the abstract state, and the clock is the message's `begin_time` |
| ChainStore.Db.ProcessAggregateFunctions | src/backend/opus/pvm/posix/functions.py:146-211 | the loop in place is `Run`: same outcomes, same exception, same final state, and the store stays valid |
| ReaderSpec.Recv | src/backend/opus/production.py:144 | `recv(size)` returns at most `size` bytes, loses none, and gives EAGAIN on an empty socket |
| ReaderSpec.ReceiveFrom | src/backend/opus/production.py:138-165 | the loop keeps what it had; it succeeds exactly when it got `size` bytes and never gets more; no byte is lost |
| ReaderSpec.ReceiveRules | src/backend/opus/production.py:138-165 | one `recv` decides each pass: an empty socket, EAGAIN or EWOULDBLOCK gives "try again later", an empty read or any other error gives "close connection", EINTR retries, a short read asks for the rest, and a longer chunk fills the request and leaves its surplus on the socket; bytes already collected are kept |
| ReaderSpec.ReceiveShift | src/backend/opus/production.py:132-165 | bytes already in the buffer change neither the status nor what is left on the socket |
| ReaderSpec.HeaderPhase | src/backend/opus/production.py:88-101 | asks only for the missing header bytes; on success the header is decoded from the first `H` bytes; otherwise there is no header and the buffer keeps its bytes |
| ReaderSpec.PayloadPhase | src/backend/opus/production.py:103-130 | a message comes back exactly on success, as `H` header bytes and the announced number of payload bytes, and the buffer and header are reset; otherwise the bytes stay buffered |
| ReaderSpec.ReadMessage | src/backend/opus/production.py:85-130 | `get_message`: success exactly with a complete message; on other statuses the buffer and header are kept; no byte is lost or duplicated |
| ReaderSpec.ReadMessageRules | src/backend/opus/production.py:85-165 | while a message is incomplete, the next `recv` decides `get_message`: an empty socket, EAGAIN or EWOULDBLOCK gives "try again later", an empty read or any other error gives "close connection", and EINTR is retried; the buffer and header are kept |
| ReaderSpec.FramingUnique | src/backend/opus/production.py:85-165 | a byte stream splits into complete messages and an incomplete rest in only one way |
| ReaderSpec.ReadKeepsStream | src/backend/opus/production.py:85-130 | delivered messages, then the buffer, then the unread socket bytes are always the connection's whole stream |
| SockRead.SockReader.constructor | src/backend/opus/production.py:79-83 | a reader starts with an empty buffer and no header |
| SockRead.SockReader.Receive | src/backend/opus/production.py:138-165 | the loop in place equals `ReceiveFrom` |
| SockRead.SockReader.FillBuffer | src/backend/opus/production.py:132-136 | the buffer grows by what `_receive` got |
| SockRead.SockReader.ReadHeader | src/backend/opus/production.py:88-101 | equals `HeaderPhase` |
| SockRead.SockReader.ReadPayload | src/backend/opus/production.py:103-130 | equals `PayloadPhase` |
| SockRead.SockReader.GetMessage | src/backend/opus/production.py:85-130 | equals `ReadMessage`, keeps the reader invariant, and records each delivered message |
| SockRead.SockReader.Close | src/backend/opus/production.py:171-173 | the socket is closed |
| SockRead.SameBytesSameMessages | src/backend/opus/production.py:85-165 | two readers that took the same bytes, however split, delivered the same messages and buffer the same rest |
| ConnIndex.PidAdd | src/backend/opus/production.py:300-303 | the pid gets a list (appended to or new); every other pid keeps its list |
| ConnIndex.PidRemove | src/backend/opus/production.py:274-278 | only the closing pid's list changes: the descriptor is removed, and the pid is dropped when the list empties |
| ConnIndex.ConnectKeeps | src/backend/opus/production.py:297-303 | a new connection keeps every list non-empty, duplicate-free and in step with the fd map |
| ConnIndex.CloseKeeps | src/backend/opus/production.py:269-283 | a close keeps the index consistent, and the pid loses its entry exactly when that was its only connection |
| ConnIndex.RemoveFirstKeepsDistinct | src/backend/opus/production.py:276 | `list.remove` of a listed descriptor leaves exactly the others |
| ConnIndex.ConnectionsCounted | src/backend/opus/production.py:315-317 | a pid's list is as long as its set of open connections, which is non-empty |
| ManagerSpec.Accept | src/backend/opus/production.py:285-303 | the new descriptor is the next number and holds the client's pid and an empty reader; every other connection is kept |
| ManagerSpec.Hangup | src/backend/opus/production.py:267-283 | the descriptor is forgotten; `list.remove` raises ValueError exactly when the pid has a list without the descriptor; otherwise the descriptor leaves the list and a disconnect message is added exactly when it was the last one |
| ManagerSpec.Serve | src/backend/opus/production.py:252-265 | keeps every reader's invariant and the descriptor counter; every descriptor except the served one stays open, and the served one may be dropped; and only whole frames are added |
| ManagerSpec.Step | src/backend/opus/production.py:239-249 | one event keeps every reader's invariant; `StepKeeps` and `StepExtends` state the rest |
| ManagerSpec.StepExtends | src/backend/opus/production.py:239-249 | one event keeps the messages collected so far and only appends; only a new connection advances the descriptor counter, by one; KeyError leaves the manager as it was |
| ManagerSpec.PollFrom | src/backend/opus/production.py:238-250 | the loop keeps every reader's invariant; `PollFromFrames` and `PollFromExtends` state the rest |
| ManagerSpec.PollFromExtends | src/backend/opus/production.py:238-250 | the loop keeps the messages collected so far and only appends, and never lowers the descriptor counter |
| ManagerSpec.StepKeeps | src/backend/opus/production.py:240-249 | one event on a consistent index keeps it and adds only whole frames; it raises exactly for a readable or hung-up descriptor that is not open, and then KeyError |
| ManagerSpec.Poll | src/backend/opus/production.py:228-237 | a failed or timed-out poll, or one with no events, gives nothing and changes nothing |
| ManagerSpec.PollFromFrames | src/backend/opus/production.py:224-250 | a poll on a consistent index keeps it, hands on only whole frames besides disconnect messages, and raises only KeyError |
| ManagerSpec.AcceptKeepsIndex | src/backend/opus/production.py:297-303 | accepting keeps the index consistent |
| ManagerSpec.HangupKeepsIndex | src/backend/opus/production.py:267-283 | closing an open descriptor for its own peer never raises and keeps the index consistent |
| ManagerSpec.ServeKeepsIndex | src/backend/opus/production.py:252-265 | serving an open descriptor never raises and keeps the index consistent |
| ManagerSpec.DetachedClosesAll | src/backend/opus/production.py:305-313 | detaching a connected pid closes exactly its descriptors, drops its entry, keeps every other connection and pid, and hands on one disconnect message, for its last descriptor |
| ManagerSpec.DetachFromSteps | src/backend/opus/production.py:309-312 | while the pid's list is exactly the descriptors left to close, the loop never raises and ends with the pid gone and those descriptors dropped |
| ManagerSpec.DetachFromKeeps | src/backend/opus/production.py:309-312 | on any index, the `detach` loop (`DetachFrom`) keeps the descriptor counter and every connection it does not close, and keeps the messages collected so far; when no step raises, every listed descriptor is gone |
| ManagerSpec.Detached | src/backend/opus/production.py:305-313 | no count exactly for an unknown pid, and then no message and no change; otherwise the count is the length of the pid's list; the descriptor counter stays, and no descriptor is opened |
| ManagerSpec.PidCounts | src/backend/opus/production.py:315-317 | the same pids, each with the length of its list |
| ManagerSpec.Commanded | src/backend/opus/production.py:410-434 | without `cmd`, KeyError and no reply; with it, always a reply; only a detach of a connected pid changes the manager; messages come only with a successful reply |
| ManagerSpec.CommandedReplies | src/backend/opus/production.py:410-434 | the reply table: `ps` gives the pid counts; `detach` without a pid, of an unknown pid, or an unknown command gives its failure message and changes nothing; detaching a connected pid reports its number of connections and hands on one disconnect message |
| ManagerSpec.CommandedKeeps | src/backend/opus/production.py:410-434 | a command on a consistent index keeps it, hands on only disconnect messages (every message of a successful command is a disconnect), and fails only with KeyError |
| ManagerSpec.RunPass | src/backend/opus/production.py:386-403 | with no command pending, a pass is the poll |
| ManagerSpec.RunPassKeeps | src/backend/opus/production.py:386-403 | a pass on a consistent index keeps it, hands on only whole frames besides disconnect messages, and fails only with KeyError |
| CommManager.MultiCommunicationManager.constructor | src/backend/opus/production.py:197-207 | both maps start empty and the server socket is open |
| CommManager.MultiCommunicationManager.HandleNewConnection | src/backend/opus/production.py:285-303 | a fresh, open reader is stored under the new descriptor and the descriptor is appended to its pid's list; the readers are the old ones plus the new one; the manager's value steps as `Accept` |
| CommManager.MultiCommunicationManager.HandleCloseConnection | src/backend/opus/production.py:267-283 | the descriptor is forgotten and removed from its pid's list, the socket is closed, and exactly one disconnect message is appended when that was the pid's last connection; the manager's value steps as `Hangup` |
| CommManager.MultiCommunicationManager.HandleClient | src/backend/opus/production.py:252-265 | the reader steps as `ReadMessage` and the manager's value as `Serve`: success appends the message, close goes through `Hangup` and closes the reader's socket, try-again changes nothing else; on any status but close the reader's closed flag is kept |
| CommManager.MultiCommunicationManager.DoPoll | src/backend/opus/production.py:224-250 | the messages and the manager's new value are exactly `Poll` of the events: an empty or failed poll gives nothing and changes nothing; every message is a whole frame; the only exception is KeyError. Every reader that leaves the map has its socket closed, every reader kept keeps its closed flag, and every new reader is open. |
| CommManager.MultiCommunicationManager.PollEach | src/backend/opus/production.py:239-250 | the loop over a non-empty event list: the messages and the manager's new value are exactly `PollFrom` of the events; every reader that leaves the map has its socket closed, every reader kept keeps its closed flag, and every new reader is open |
| CommManager.MultiCommunicationManager.HandleEvent | src/backend/opus/production.py:240-249 | one event handled exactly as `Step` says of the manager's value. Every reader that leaves the map has its socket closed, every reader kept keeps its closed flag, and every new reader is open. |
| CommManager.MultiCommunicationManager.HandleClientEvent | src/backend/opus/production.py:242-249 | a client event handled as `Step` says: a readable client is served, a hung-up one closed, an unknown descriptor raises KeyError; the readers only shrink, and a reader that leaves is closed while the others keep their closed flag |
| CommManager.MultiCommunicationManager.Readable | src/backend/opus/production.py:242-244 | a readable client is served as `Serve` says; its reader is closed exactly when it leaves the map, and every other reader stays with its flag |
| CommManager.MultiCommunicationManager.HungUp | src/backend/opus/production.py:245-249 | a hung-up client is closed as `Hangup` says; its reader leaves the map closed, and every other reader stays with its flag |
| CommManager.MultiCommunicationManager.Detach | src/backend/opus/production.py:305-313 | the count, the messages and the new value are exactly `Detached`: an unknown pid gives no count, no message and no change; a connected pid has each of its sockets closed and dropped, its entry gone, its count and one disconnect message for its last descriptor; the other readers are not touched and stay in the map; the readers only shrink, and those that leave are closed |
| CommManager.MultiCommunicationManager.CloseAll | src/backend/opus/production.py:309-312 | the loop over the copied list closes each listed descriptor and changes the manager's value as `DetachFrom`; only those descriptors leave the map |
| CommManager.MultiCommunicationManager.CloseTracked | src/backend/opus/production.py:310-311 | one pass of the loop, moving its invariant on by one descriptor |
| CommManager.MultiCommunicationManager.CloseNext | src/backend/opus/production.py:310-311 | one pass closes the first descriptor still listed, one `Hangup` step of `DetachFrom` |
| CommManager.MultiCommunicationManager.Ps | src/backend/opus/production.py:315-317 | exactly the connected pids, each with its number of open connections, which is `PidCounts` of the pid map |
| CommManager.MultiCommunicationManager.Close | src/backend/opus/production.py:319-325 | the server socket and every client socket are closed |
| CommManager.MultiCommunicationManager.CloseClient | src/backend/opus/production.py:323-325 | the client's socket is closed |
| CommManager.SocketProducer.constructor | src/backend/opus/production.py:376-384 | no reply and nothing enqueued yet |
| CommManager.SocketProducer.ProcessCommand | src/backend/opus/production.py:410-434 | the reply and the manager's new value are exactly `Commanded`; a command without `cmd` raises KeyError and leaves the reply; only a detach of a connected pid changes the manager, touching only that pid's readers, and it closes them; every reader that leaves the map is closed, the others keep their closed flag |
| CommManager.SocketProducer.RunOnce | src/backend/opus/production.py:386-403 | the result and the manager's new value are exactly `RunPass`: the poll's messages followed by the command's; the reply is the command's; a non-empty result is enqueued once and nothing else is; only whole frames besides disconnect messages come back; the only exception is KeyError. Every reader that leaves the map has its socket closed, every reader kept keeps its closed flag, and every new reader is open. |
| CommManager.SocketProducer.Gather | src/backend/opus/production.py:386-401 | the messages of one pass and the manager's new value are exactly `RunPass`, with the command's reply. Every reader that leaves the map has its socket closed, every reader kept keeps its closed flag, and every new reader is open. |
| CcFraming.ToLE | src/backend/opus/cc_utils.py:16-21 | packing a length gives exactly `k` bytes |
| CcFraming.FromLE | src/backend/opus/cc_utils.py:16-44 | an unpacked length fits in its bytes |
| CcFraming.FromToLE | src/backend/opus/cc_utils.py:21-44 | unpacking a packed length gives it back |
| CcFraming.ToFromLE | src/backend/opus/cc_utils.py:21-44 | packing an unpacked header gives it back |
| CcFraming.ToLEValue | src/backend/opus/cc_utils.py:16-21 | the `k` packed bytes of any number read back as that number modulo 256^k, so below 256^k packing loses nothing (`EncodeCcMsg` packs only lengths below 2^32) |
| CcFraming.EncodeCcMsg | src/backend/opus/cc_utils.py:16-22 | the frame is the four-byte length that unpacks to the payload's length, then the payload; struct.error exactly when the length does not fit |
| CcFraming.RecvOnce | src/backend/opus/cc_utils.py:33 | at most `n` bytes, none lost; empty exactly when the peer closed; a timeout raises IOError |
| CcFraming.ReceivedAsWritten | src/backend/opus/cc_utils.py:26-38 | the loop as written returns at least what was asked for and fewer than twice that, loses no byte, and raises only IOError |
| CcFraming.ReceivedExact | src/backend/opus/cc_utils.py:26-38 | asking for the missing bytes returns exactly `size` bytes and loses none |
| CcFraming.MessageAsWritten | src/backend/opus/cc_utils.py:41-45 | `recv_cc_msg` as written raises only IOError or struct.error; a payload comes back only after the four header bytes, at least as long as they announce, with no byte lost |
| CcFraming.MessageExact | src/backend/opus/cc_utils.py:41-45 | a payload comes back only when the stream began with its packed length and the payload |
| CcFraming.ReceivedExactSucceeds | src/backend/opus/cc_utils.py:32-38 | on a peer that keeps sending, the exact loop succeeds |
| CcFraming.CcRoundTrip | src/backend/opus/cc_utils.py:18-45 | any chunking of an encoded frame decodes to the payload and leaves what followed |
| CcFraming.WholeFrameAsWritten | src/backend/opus/cc_utils.py:26-45 | a frame arriving in one piece is read back even as written |
| CcFraming.WholeHeaderAsWritten | src/backend/opus/cc_utils.py:26-43 | a frame in one chunk: the header read as written takes exactly the four header bytes and leaves the payload for the next read |
| CcFraming.WholePayloadAsWritten | src/backend/opus/cc_utils.py:26-45 | the payload read as written then takes exactly the payload |
| CcFraming.SplitHeaderAsWritten | src/backend/opus/cc_utils.py:33-44 | a header split across reads makes the code as written over-read and raise struct.error |
| CcFraming.SplitHeaderExact | src/backend/opus/cc_utils.py:41-45 | the same chunks give the payload back when each read asks for what is missing |
| CcFraming.CcSocket.constructor | src/backend/opus/cc_utils.py:59-60 | a connected socket with nothing sent |
| CcFraming.CcSocket.Recv | src/backend/opus/cc_utils.py:33 | equals `RecvOnce` |
| CcFraming.CcSocket.Send | src/backend/opus/cc_utils.py:23 | writes the whole buffer, or raises IOError and writes nothing |
| CcFraming.CcSocket.Close | src/backend/opus/cc_utils.py:77 | the socket is closed |
| CcFraming.SendCcMsg | src/backend/opus/cc_utils.py:18-23 | writes exactly the encoded frame, or raises struct.error or IOError and writes nothing |
| CcFraming.RecvAsWritten | src/backend/opus/cc_utils.py:26-38 | the loop as written equals `ReceivedAsWritten` |
| CcFraming.RecvExact | src/backend/opus/cc_utils.py:26-38 | the corrected loop equals `ReceivedExact` |
| CcFraming.RecvCcMsgAsWritten | src/backend/opus/cc_utils.py:41-45 | equals `MessageAsWritten` |
| CcFraming.RecvCcMsg | src/backend/opus/cc_utils.py:41-45 | equals `MessageExact` |
| CcFraming.MakeRequest | src/backend/opus/cc_utils.py:56-78 | IOError in connect, send or receive becomes BackendConnectionError of that step; the reply is the decoded frame; the socket is closed exactly on success |
| CcFraming.RequestRoundTrip | src/backend/opus/cc_utils.py:56-78 | a backend answering with the frame of a reply, in any chunks, gets exactly that reply back |
| LaunchEnv.Take | src/backend/opus/opusctl/cmds/process.py:38-41 | `s[:n]` is a prefix of length `min(n, len(s))` |
| LaunchEnv.Drop | src/backend/opus/opusctl/cmds/process.py:39-43 | `s[:n] + s[n:] == s` |
| LaunchEnv.Split | src/backend/opus/opusctl/cmds/process.py:43 | at least one piece, no piece holds the separator, and a single piece exactly when the separator is absent |
| LaunchEnv.SplitJoin | src/backend/opus/opusctl/cmds/process.py:43 | joining the pieces of a split gives the string back |
| LaunchEnv.JoinSplit | src/backend/opus/opusctl/cmds/process.py:43 | splitting separator-free pieces joined gives the pieces back |
| LaunchEnv.FirstTwoFields | src/backend/opus/opusctl/cmds/process.py:43-45 | fields 0 and 1 are the text before the first colon and between the first and second |
| LaunchEnv.PreloadFor | src/backend/opus/opusctl/cmds/process.py:31-36 | the resulting `LD_PRELOAD` always contains the library and starts with the old value; it is unchanged when it already contains the library, and is old + " " + lib otherwise |
| LaunchEnv.PreloadIdempotent | src/backend/opus/opusctl/cmds/process.py:31-36 | applying the update twice equals applying it once |
| LaunchEnv.WithAddr | src/backend/opus/opusctl/cmds/process.py:38-45 | `unix…`: the normalised path after the seventh character and mode "unix"; otherwise mode `addr[:3]` and host and port as fields 0 and 1 after `tcp://`; IndexError exactly when that part has no colon; no other entry changes |
| LaunchEnv.WithFixed | src/backend/opus/opusctl/cmds/process.py:46-49 | the four fixed settings are added and nothing else changes |
| LaunchEnv.Launched | src/backend/opus/opusctl/cmds/process.py:29-53 | the launch raises exactly for a TCP address without a port, and then only IndexError |
| LaunchEnv.LaunchPreloads | src/backend/opus/opusctl/cmds/process.py:31-53 | after a launch `LD_PRELOAD` is `PreloadFor` of the old value; a launch that raises has still set an absent one to the library |
| LaunchEnv.LaunchFixes | src/backend/opus/opusctl/cmds/process.py:46-53 | a successful launch sets the four fixed settings |
| LaunchEnv.LaunchAddresses | src/backend/opus/opusctl/cmds/process.py:38-53 | a successful launch sets the socket path and mode, or the mode, host and port, overriding earlier values |
| LaunchEnv.LaunchKeepsOthers | src/backend/opus/opusctl/cmds/process.py:29-53 | every other variable is kept as it was |
| LaunchEnv.RelaunchKeepsPreload | src/backend/opus/opusctl/cmds/process.py:31-36 | launching again from a launched program leaves `LD_PRELOAD` as it was |
| LaunchEnv.Environ.constructor | src/backend/opus/opusctl/cmds/process.py:31 | the environment holds the given variables |
| LaunchEnv.HandleLaunch | src/backend/opus/opusctl/cmds/process.py:29-53 | the successive assignments to the environment and to `extra_env`, then the update, give exactly `Launched` |
| ClientQuery.ExecAsWritten | src/backend/opus/query/client_query.py:20-26 | KeyError exactly without `qry_method`; NameError exactly for a registered method; otherwise the failure reply "Invalid query command" |
| ClientQuery.Exec | src/backend/opus/query/client_query.py:20-26 | the intended dispatch: a registered method is called on `qry_args` (KeyError without them); an unknown one gets the failure reply |
| ClientQuery.RegisterThenExec | src/backend/opus/query/client_query.py:12-24 | a query for a just-registered name reaches the new method, whatever was there before |
| ClientQuery.RegisterKeepsOthers | src/backend/opus/query/client_query.py:15 | registering one name changes nothing for queries of other names |
| ClientQuery.AsWrittenAgreesOffTable | src/backend/opus/query/client_query.py:20-26 | the code as written and the intended dispatch agree except on registered methods, and the code as written never calls a handler |
| ClientQuery.RegisteredUnreachable | src/backend/opus/query/client_query.py:5-24 | for a registered method the code as written raises NameError where the intended dispatch calls it |
| ClientQuery.ClientQueryControl.constructor | src/backend/opus/query/client_query.py:9-10 | the table starts empty |
| ClientQuery.ClientQueryControl.Register | src/backend/opus/query/client_query.py:12-17 | stores the method under the name, replacing any earlier one, and returns it unchanged |
| ClientQuery.ClientQueryControl.ExecMethod | src/backend/opus/query/client_query.py:19-26 | equals `ExecAsWritten` and leaves the table unchanged |

## Left out

- All `posix_*` handlers (`pvm/posix/functions.py:214-773`) are left out. They are thin calls into the `actions`, `utils`, `traversal` and `pvm` modules, which are not part of this model.
- `wrap_action`'s call into `actions.ActionMap.call` is not run. `FuncController.Call` returns the action name and argument set it would be called with.
- FuncControl.FuncController.Load does not parse the YAML file. The parsed table is a parameter, or None when the file cannot be read.
- PosixArgs.ParseMapping does not parse `msg.args`. It takes the result of `parse_kvpair_list` as a map, and the protobuf `HasField`/`getattr` as a map of set fields. `HasField` raises ValueError for a name that is not a field of the message; the model answers None for it, as for an unset field.
- Modes.ParseOmode takes the flags as an integer. The `int(mode)` conversion of a string is not modelled.
- `load_cache`'s Cypher query and the database engine are left out. Their rows are functions of the graph: the process's locals with the descriptor's name, ordered by `mono_time` (a stable sort), each with its `PREV_EVENT*` path. `proc_get_local` is left out; its `NoMatchingLocalError` is swallowed in the source anyway.
- Chains.PathFrom: the walk is bounded by the number of `PREV_EVENT` edges. This only matters on graphs with a cycle, which a mirrored list never has.
- `utils.event_from_msg` gives the new node the next unused id and the message's `begin_time` as its `before_time`. Its other properties are not modelled.
- `IndexList.find` is modelled as the first index whose key exceeds the probe (bisect-right on sorted keys).
- The `cache_man` internals are left out. The IO_EVENT_CHAIN cache is a map the splicer only reads. A freshly loaded index is not written back, as in the source.
- The LAST_EVENT cache is a set of anchors, and invalidation removes the anchor.
- `messaging.Header` is not part of this model. A header is a fixed length and a function from header bytes to the payload length.
- epoll, `accept`, `getsockopt(SO_PEERCRED)`, `setblocking` and `epoll.unregister` are left out. Readiness events are a script, the peer's pid comes with the event, and descriptor numbers are handed out by a counter.
- The disconnect message's protobuf body, timestamps and `mono_time_in_nanosecs` are left out. The message is a pair of pid and descriptor, and its tid equals the pid.
- CommManager.MultiCommunicationManager.HandleCloseConnection requires the descriptor to be open. The source also tolerates a descriptor that is already gone, but every caller passes a live one.
- CommManager.MultiCommunicationManager.Valid does not require every reader in the map to be open. The methods state the flag's history instead: a reader that leaves the map is closed, a kept reader keeps its flag, and a new reader is open. Together these keep every reader in the map open whenever all of them were open before.
- CommManager.MultiCommunicationManager.Close closes the clients in an unspecified order, where the source follows the dict's key order.
- The debug deserialisation in `get_message` (`production.py:116-124`) is left out. It runs under `__debug__`, which the server keeps on in debug mode (`opusctl/server_start.py:92`), and its `ParseFromString` can raise on a malformed payload. The model's `get_message` never raises.
- CommManager.SocketProducer.ProcessCommand types the pid as an integer. `"{:d}".format(cmd['pid'])` (`production.py:427-429`) raises ValueError for a pid of another type, and that error is not modelled.
- ChainStore.Db.ChainIndex: the cache-hit path agrees with the store only by the coherence `Db.Valid` assumes of the IO_EVENT_CHAIN cache. Nothing in the model fills that cache, so the agreement is an invariant of the model rather than something the source checks.
- The `threading.Event` hand-off and the stop loop of `run` are concurrency and are left out. `SocketProducer.RunOnce` is one pass, with the pending command as a parameter. The final `comm_manager.close()` is `Close`.
- The `meta_factory` construction of the communication manager and the server socket's bind/listen errors are left out.
- JSON encoding and decoding in `cc_utils.py` are left out. Payloads are byte strings.
- `send` writes the whole buffer or raises. A partial `send` is not modelled.
- The "@I" header is taken as 4 bytes, little-endian.
- CcFraming.MakeRequest: the `except TimeoutError` clause (`cc_utils.py:75`) is not modelled. Python evaluates it for any exception of `recv_cc_msg` that is not an IOError (a socket timeout is an IOError). The code targets Python 2.7 (`setup.py:1`), where `TimeoutError` is undefined, so evaluating the clause raises NameError. That covers a `json.loads` ValueError on a malformed reply, and, with the as-written receive, a struct.error from a split header. The model's receive raises only IOError and does not decode JSON, so it has no path to that NameError.
- CcFraming.MakeRequest reads the reply with the corrected receive (see Findings), not the as-written one. The as-written receive is `RecvCcMsgAsWritten`.
- `handle_launch`'s server start (`process.py:24-27`), `get_current_shell` (psutil), and the final `execvp` are left out. `path_normalise` and the configuration values are parameters.
- ClientQuery.Exec only names the call of a registered handler on its arguments. The handlers and `db_iface` are not part of this model, and `qry_args` is a string.
- `scripts/opusctl.py`, `opusctl/server_start.py`, `interposelib/opus_lock.h` and `setup.py` are not part of this model.

## Findings

| source | as written | input that shows it | evidently intended | confidence | as-written member | corrected member |
|---|---|---|---|---|---|---|
| src/backend/opus/cc_utils.py:26-45 | `__recv` calls `sock.recv(data_len)` on every pass, not `recv(size)`. After a partial read, the next read can take bytes of the following field. The header read then returns more than four bytes, and `unpack` raises struct.error. | the frame of payload `[7, 8]` arriving as chunks `[2, 0]` and `[0, 0, 7, 8]` | ask for the bytes still missing, `sock.recv(size)` | not executed | CcFraming.SplitHeaderAsWritten | CcFraming.CcRoundTrip |
| src/backend/opus/query/client_query.py:22 | the registered branch of `exec_method` calls `logging.info`, but the module never imports `logging`. Every registered method raises NameError before it is called. | a table holding method `h` under "q" and the message `{qry_method: "q", qry_args: ""}` | call the registered method on `qry_args` | not executed | ClientQuery.RegisteredUnreachable | ClientQuery.RegisterThenExec |
