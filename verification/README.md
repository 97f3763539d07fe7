# A verified model of the project syncer

The program keeps folders on several machines in step. A sender walks its tree and announces a manifest; the receiver
compares it with its own files, asks for what it lacks and installs the chunks it is sent. Machines that cannot reach
each other directly talk through a relay, which keeps rooms of sessions and forwards opaque frames; on each client a
virtual connection turns those frames back into a byte stream. An ignore list prunes the tree walk, a watcher debounces
file events, and an approval queue holds folders back until somebody agrees.

The model follows the program's components, one group of modules each.

- **Frames, Tunnel** - the length-prefixed wire format and the virtual connection. `VirtualConn` is the object itself;
  `Path` is the whole way of a frame from the writer through the relay, the other client's queue and reads of any size.
- **RelayHub, RelaySafety, RelayIsolation, RelayRooms, RelayDrift, RelayHazards** - the relay as a transition system.
  Every critical section under `s.mu` or `rm.mu`, and every write to a socket, is one step of one session's handler; any
  number of handlers run. Rooms and sessions are objects known by index and never reused, so pointer identity is index
  equality.
- **RelayView, RelayAtomic, RelayRefinement, RelayPhantom** - the relay with each registration, failing or not, and each
  departure as one event, for the one property that needs it, and the proof that a handler of `RelayHub` whose sections
  are not interrupted does exactly what the event says.
- **RelayServer, RelayClient** - the same code as classes that update their maps in place.
- **Transfer** - one provider, one consumer and two FIFO channels, step by step, with manifests, hellos and pings put in
  between at any moment and the provider's files edited under way. The length of a chunk's JSON text is a parameter; a
  chunk that the reader refuses ends the connection.
- **Reconcile, Convergence, Engine** - what a manifest makes the receiver do, what whole sequences of exchanges lead
  to, and the loops of the engine themselves.
- **Paths, Ignore, IgnoreExact, Walk, Pruning, BareNames, CatchUp, DeltaPush** - the matcher against a declarative meaning of `**`, the tree
  walk that skips directories against a plain filter, and the incremental scan against the full one, up to what a
  one-way receiver makes of either manifest.
- **Debounce, Approval** - the two small concurrent machines.
- **Order** - parts of a list that keep its order, for requests, answers and scans.

Each loop or in-place operation of the program is a method proved against a function of its inputs or old state, and
what the program promises is proved about those functions. Properties of concurrent parts are proved for every run.

## Conventions

- `filepath.Match` is a parameter `glob`. Where a result depends on it at all, the one fact used is that a pattern
  without metacharacters matches exactly itself (`LiteralGlob`). Paths are separated by slashes.
- JSON marshalling is the identity on the message datatypes. Content digests do not collide (`CollisionFree`).
- The clock is a parameter: received files get an arbitrary new time, conflict names use one stamp per exchange and are
  new to both sides (`FreshStamp`).
- Manifests list clean, distinct paths, as `Walk.WalkListsOnce` shows the walk to produce them.
- The `file_state` table of one sync name is a map, and the store is present.

## What turned out not to hold

Each of these is a property one might expect, with a lemma that shows the input or run for which it fails and, beside
it, a lemma that says exactly when it does hold.

- A virtual connection closed by another goroutine can lose a frame and still hand out the next one
  (`CloseRaceSkipsAFrame`). The stream stays unbroken, however things go on, if and only if the reader is not waiting on
  an empty queue as the connection is closed (`CloseIsCleanIff`); at most one frame is fetched after the close
  (`OneFrameAfterClose`).
- Two sessions of one sync group can settle in different room objects and never meet, because a room found at
  `internal/relay/server.go:118-124` may be unmapped before the insert (`SplitGroup`). Groups stay together throughout a
  run if and only if every room that is unmapped at `internal/relay/server.go:242-246` is one that no session is mapped
  in or on the way into (`GroupsStayTogetherIff`); sessions that have been replaced do not matter. One more connection
  shows the split exactly when it is not (`UnmapSplitsIff`).
- A departure can be announced after the same peer has come back, so a client forgets a peer that is present
  (`StaleLeave`), and a snapshot can be written out after a peer in it has left, so a client keeps one that is not
  (`StaleSnapshot`). `GoesWrongIff` lists the sections that make a client's view wrong, by what holds as each runs, and
  says that there are no others.
- Even when no section is interrupted, a registration that takes the place of a mapped session and then fails to write
  (`internal/relay/server.go:141-150`) is announced by nobody, so clients go on believing in the peer (`PhantomPeer`).
  A client's view is its room if and only if that has not happened while it was there, without a later registration of
  the same ID going through (`ClientViewIsTheRoomIff`, and `SerialViewIff` for the sections themselves).
- Room keys are ambiguous exactly when a sync name or key contains a NUL (`RoomKeyAmbiguousIff`).
- Two rounds of exchange are not enough once two files have the same time and different content: `ConvergesIff` gives
  the exact sequences that are, `NewestWinsIff` those that suffice without such conflicts.
- The string branches of the matcher are not the meaning of `**`: `LeadingStarsIff`, `TrailingStarsIff` and
  `MiddleStarsIff` say exactly what they accept. A pattern that neither begins nor ends with a `**` among others never
  misses (`InnerStarsNeverUnderMatch`); one with a `**` at an end can (`BothEndsUnderMatch`), and `BothEndsIff`,
  `LeadingAnyIff` and `TrailingAnyIff` say exactly which paths it misses.
- Skipping directories can hide files that are not ignored themselves (`BareNameOverPrunes`); it is harmless if and
  only if nothing that would be kept lies below a skipped directory (`PrunedWalkIff`), and, for lists of bare names and
  directory patterns, if and only if `name/**` stands beside every bare name (`BareNamesPruneFaithfullyIff`).
- A file whose chunk is larger than the 64 MiB that `ReadFrame` accepts is sent all the same and costs the connection
  (`OversizedFileDropsTheConnection`, `ChunkRefusedTwice`). Every session gets exactly to the first path that cannot be
  sent or whose chunk is too large (`InstallsExactlyThePrefix`, `StopsAtTheFirstUndeliverable`), so such a file stops
  every session that asks for it.
- The incremental scan is the full one if and only if equal size and time mean equal content (`DeltaRefinesFullIff`,
  `DeltaServesReceiversIff`), and a change it has recorded is not announced again even if it was lost
  (`SecondScanIsSilent`).
- Pings are answered by pings on both sides and never die out while no file is being received (`PingsAreConserved`).
- A watcher callback can come after `Close` (`CallbackAfterClose`); none does, whatever follows, if and only if every
  timer that has yet to call back is armed and still entered for its folder at that moment (`CloseIsFinalIff`).
- Of a file sent in several chunks only the last one's data would survive (`FirstFinalWins`); `sendFiles` sends one.

## Model

| member | source | states |
|---|---|---|
| Frames.DecodeOfEncode | internal/protocol/protocol.go:58-81 | what reading back any written frame gives, whatever its length and whatever follows it, with the header's wrap-around at 4 GiB |
| Frames.RoundTripIff | internal/protocol/protocol.go:58-81 | a written frame comes back with the rest untouched if and only if type and payload fit in 64 MiB; beyond that, below 4 GiB, the reader fails after exactly four bytes |
| Frames.ChunkRefusedTwice | internal/protocol/protocol.go:67-81 | after a chunk that is too large the next read fails as well, on the text taken for a length |
| Frames.EncodeOfDecode | internal/protocol/protocol.go:67-81 | every accepted frame is within the limit and re-encodes to exactly the bytes consumed |
| Frames.ParseOfEncodeAll | internal/protocol/protocol.go:58-81 | any concatenation of admissible frames parses back to the same list and then goes on with what follows |
| Frames.ParseOfPrefix | internal/protocol/protocol.go:67-81 | a reader that has seen only part of a stream has parsed a prefix of the frame list and holds back less than one frame |
| Frames.EncodeAllOfParse | internal/protocol/protocol.go:67-81 | for arbitrary bytes, the parsed frames and the unread tail spell the input |
| Frames.EncodeAllInjective | internal/protocol/protocol.go:58-65 | the byte stream determines the frame list |
| Frames.WriteFrame | internal/relay/protocol.go:57-64 | appends exactly the encoded frame, built in a fixed buffer by index and copy |
| Frames.ReadFrame | internal/relay/protocol.go:66-80 | reports and consumes exactly what the decoding function says, in all error cases too |
| Tunnel.VirtualConn.constructor | internal/relay/virtual_conn.go:23-31 | a new connection is open and empty |
| Tunnel.VirtualConn.Read | internal/relay/virtual_conn.go:33-60 | for any buffer size the bytes come out in arrival order, none twice and none missing, as many as the buffer and the first queued frame allow; end of file only when closed, blocked only when open with nothing pending |
| Tunnel.VirtualConn.Deliver | internal/relay/virtual_conn.go:74-81 | queues the re-framed payload behind everything pending, drops it only after a close, and is stuck only on a full queue of an open connection |
| Tunnel.VirtualConn.Close | internal/relay/virtual_conn.go:83-92 | sets the flag and nothing else, however often it is called |
| Tunnel.RepackIff | internal/relay/protocol.go:98-105 | stripping a written buffer and packing it again gives it back if and only if its header is its length |
| Tunnel.TunnelRefinesStream | internal/relay/virtual_conn.go:33-81 | in every run, while no frame has been lost the bytes read are a prefix of what a direct connection would carry, all of it once drained; the frames parsed are a prefix of the frames written, and exactly those once drained; nothing is lost before a close |
| Tunnel.OneFrameAfterClose | internal/relay/virtual_conn.go:33-60 | after a close at most one frame is still fetched, and all but that one are an unbroken prefix |
| Tunnel.CloseIsCleanIff | internal/relay/virtual_conn.go:33-92 | closing an open connection keeps what is read a prefix of what was written in every continuation if and only if the reader is not waiting on an empty queue at that moment; frames may repeat |
| Tunnel.CloseRaceSkipsAFrame | internal/relay/virtual_conn.go:43-58 | a run in which a frame is skipped |
| RelayHub.TablesAlways | internal/relay/server.go:110-248 | in every reachable state keys, rooms, member tables and program counters agree: who is mapped has entered and not removed itself, and an open session that is present is mapped under its own ID in a room of its own key |
| RelayHub.TablesStep | internal/relay/server.go:110-248 | every lock section keeps that, never changes a registration, a room's key or a joined room, and only appends to what was written |
| RelaySafety.DisplacedOnlyBy | internal/relay/server.go:126-139 | a mapped session stops being mapped only by its own removal, or by a later registration with its ID, which closes it |
| RelaySafety.GoneOnlyByOwnRemoval | internal/relay/server.go:226-248 | a leave gets on its way only from a removal that found the session itself still mapped, and that unmapped it |
| RelaySafety.InsertDisplaces | internal/relay/server.go:128-134 | a registration displaces and closes whoever held its ID |
| RelaySafety.ReplacedNeverLeaves | internal/relay/server.go:163-172 | in every run a replaced session is never mapped again and never broadcasts a leave |
| RelaySafety.OneLiveSessionPerId | internal/relay/server.go:126-139 | in every reachable state a room has at most one session per ID that is neither closed nor exiting, and it is the mapped one |
| RelaySafety.DiscoveryAlways | internal/relay/server.go:126-159 | in every reachable state, of two mapped sessions of a room one has the other in its snapshot, and has told it once it is past its broadcast |
| RelaySafety.MutualDiscovery | internal/relay/server.go:126-159 | two sessions mapped in one room object and past registration have each had the other's join written, in every interleaving |
| RelayIsolation.RoomKeyInjective | internal/relay/protocol.go:90-92 | for names without NUL, equal room keys mean equal name and equal key |
| RelayIsolation.RoomKeyAmbiguousIff | internal/relay/protocol.go:90-92 | a group shares its room key with another one if and only if its name or key has a NUL |
| RelayIsolation.DataStaysInTheGroup | internal/relay/server.go:203-224 | in every run, the data frames written to a session are exactly those logged for it, in order; each was addressed to its ID by another session of its own room key, names that sender by its registered ID, and has type and payload unchanged |
| RelayIsolation.ForwardingWrites | internal/relay/server.go:203-224 | a forwarding writes one frame, under the sender's registered ID, to the session that the target room has under the ID named, unless that is the sender's own, and nothing to anybody else; that session is closed if the write fails |
| RelayIsolation.JoinsComeFromTheRoom | internal/relay/server.go:126-159 | a client is told only of peers that registered in its own room object |
| RelayRooms.OneRoomStepIff | internal/relay/server.go:226-248 | a lock section keeps every mapped or entering session in the room its key leads to unless it takes a room off the map that such a session is in |
| RelayRooms.GroupsStayTogetherIff | internal/relay/server.go:118-139 | in a run the mapped and entering sessions of every group stay in the room its key leads to if and only if no room is unmapped with such a session in it |
| RelayRooms.UnmapSplitsIff | internal/relay/server.go:242-246 | after an unmap, one more connection and lookup of the group lands in another room than a session already there if and only if the room was occupied |
| RelayRooms.GroupMeets | internal/relay/server.go:118-159 | in a run without such unmaps, any two settled sessions of a group with different IDs have been told of each other |
| RelayHazards.SplitGroup | internal/relay/server.go:118-139 | a run after which two reading sessions of one group are mapped in different rooms and have been told nothing |
| RelayHazards.StaleLeave | internal/relay/server.go:163-172 | a run after which a client has forgotten a peer that is mapped and reading |
| RelayHazards.StaleSnapshot | internal/relay/server.go:145-150 | a run after which a newcomer believes in a peer that left between its snapshot and its greetings |
| RelayDrift.GoesWrongIff | internal/relay/server.go:126-172 | of a mapped session that has been told right of a peer, the next lock section makes it wrong if and only if it inserts or removes that peer, says farewell for it while its ID is in the table, or announces, greets with or forwards from it while its ID is not |
| RelayDrift.RightUntilMisled | internal/relay/server.go:126-172 | in a run it stays right for as long as no such section runs |
| RelayView.ClientViewAddsUp | internal/relay/client.go:175-230 | with atomic handlers, however many of its frames a live client has handled, its view and the frames on their way add up to the room without itself and the peers whose failed registration displaced a session while it was there; no data frame on its way meets an unknown sender |
| RelayView.ClientViewIsTheRoomIff | internal/relay/server.go:126-172 | that is exactly the room if and only if no registration that found its ID mapped failed while the client was there without a later arrival of that ID |
| RelayView.AttachesUnknownIff | internal/relay/client.go:207-230 | a data frame meets an unknown sender if and only if the sender's ID is not in the room and did not go silently |
| RelayRefinement.SectionsAreTheEvent | internal/relay/server.go:110-248 | from rest, the uninterrupted sections of a registration, a failing registration, a departure, a forwarding or a ping lead to rest and do exactly what the event does |
| RelayRefinement.SerialIsHistory | internal/relay/server.go:110-248 | a run in which the handlers take turns is a history of events |
| RelayRefinement.SerialViewIff | internal/relay/server.go:126-172 | in such a run of lock sections, the frames written to a mapped session add up to its room under exactly the same condition |
| RelayPhantom.PhantomPeer | internal/relay/server.go:141-150 | such a run after which a client believes in a peer both of whose sessions are gone |
| RelayServer.MemberRoom.Insert | internal/relay/server.go:126-139 | the new table, exactly one session closed if the ID was taken, and a snapshot of all the others |
| RelayServer.MemberRoom.WriteAll | internal/relay/server.go:151-159 | every member but the excluded one gets the message once |
| RelayServer.MemberRoom.Forward | internal/relay/server.go:210-223 | only the addressed member, if there is one and it is not the sender, gets the frame; it is closed if the write fails |
| RelayServer.MemberRoom.RemoveIf | internal/relay/server.go:233-239 | removes if and only if this very session is mapped |
| RelayServer.Server.Lookup | internal/relay/server.go:118-124 | finds the room of a key or makes an empty one |
| RelayServer.Server.RemoveMemberIf | internal/relay/server.go:226-248 | undisturbed: the session goes if and only if it is mapped, nobody else does, and a key is unmapped only when its room is empty |
| RelayClient.Client.HandlePeerJoin | internal/relay/client.go:175-192 | the peer gets a new connection, its old one is closed, all others stay |
| RelayClient.Client.HandlePeerLeave | internal/relay/client.go:194-205 | the peer's connection is closed and forgotten, all others stay |
| RelayClient.Client.HandleData | internal/relay/client.go:207-230 | the frame is queued on the sender's connection alone, which is created if need be; old-style and own frames as in the code |
| RelayClient.Client.Write | internal/relay/virtual_conn.go:62-72 | one write of at least five bytes sends one DATA frame with type and payload, its length left behind |
| RelayClient.Client.CloseAll | internal/relay/client.go:256-267 | every connection is closed and forgotten |
| Transfer.InvStep | internal/sync/engine.go:331-364 | while the connection is up, the chunks in flight plus what is still to be sent are the part of the request not yet installed, filtered by what can be sent; it goes down over a chunk that is too large only |
| Transfer.InstallsExactlyThePrefix | internal/sync/engine.go:407-451 | in every reachable state the installed files are the first ones asked for, each with the bytes the provider read; never past the first that cannot be sent nor past the first chunk that is too large, and exactly to the first of the two once both sides are quiet or the connection has been dropped |
| Transfer.StopsAtTheFirstUndeliverable | internal/sync/engine.go:407-451 | while no file is edited, every session gets exactly to the first path that is not readable, is ignored, or whose chunk is too large, and installs the provider's content |
| Transfer.OversizedFileDropsTheConnection | internal/protocol/protocol.go:72-75 | for any readable file that is too large, a run in which the connection is dropped with nothing installed |
| Transfer.NoDeadlock | internal/sync/engine.go:248-294 | while the connection is up, a consumer waiting for a path that can be sent has its chunk first in flight, or next to be sent, or its request still on the way, and some loop can move |
| Transfer.WorkFalls | internal/sync/engine.go:407-422 | every move of the loops during a session lowers the work left |
| Transfer.SessionIsBounded | internal/sync/engine.go:407-451 | a session makes no more moves than the work at its start plus two for every message put in between |
| Transfer.PingsAreConserved | internal/sync/engine.go:289-291 | the loops never change the number of pings on a connection, except for those dropped while receiving |
| Transfer.InstallsAreAcknowledged | internal/sync/engine.go:449 | every installed file is acknowledged once, and nothing else is |
| Reconcile.JudgeIff | internal/sync/engine.go:296-321 | an entry is fetched if and only if it is visible and missing or different, and both ways newer; `shouldSkip` changes nothing |
| Reconcile.ExchangeIsMerged | internal/sync/engine.go:296-364 | for the sender's manifest in any order, the loop with its renames and the transfer give the path-by-path result, and exactly the wanted paths are requested |
| Reconcile.RequestIsExact | internal/sync/engine.go:318 | for the sender's manifest the request lists exactly what the receiver wants, each path once, in the order of the manifest |
| Reconcile.RequestFollowsManifest | internal/sync/engine.go:296-321 | for any manifest the request lists paths of its entries from front to back, each entry once at most |
| Reconcile.NothingIsLost | internal/sync/engine.go:303-321 | whatever the receiver held stays under its name or conflict name, or gave way to the sender's file, both ways only if strictly older; hidden files are untouched and nothing appears from nowhere |
| Reconcile.OneWayAgrees | internal/sync/engine.go:371-384 | one way, the receiver ends with the sender's content on all it shows and keeps everything else |
| Convergence.Converges | internal/sync/engine.go:296-321 | even with conflicts, a first exchange followed by one in each direction makes the replicas equal; A to B, A to B, B to A is an instance |
| Convergence.ConvergesIff | internal/sync/engine.go:296-321 | exactly those sequences make every two replicas equal |
| Convergence.ConflictCopySurvives | internal/sync/engine.go:401-405 | what the receiver held at a conflicted path is under its conflict name after any further exchanges |
| Convergence.NewestWins | internal/sync/engine.go:299-325 | without conflicts, an exchange in each direction gives every visible path the newer side's content on both sides, though received files carry the receiver's clock |
| Convergence.NewestWinsIff | internal/sync/engine.go:299-325 | exactly the sequences with both directions do that |
| Convergence.SilentIff | internal/sync/engine.go:299-325 | replicas are equal if and only if neither wants anything of the other and nothing clashes |
| Convergence.NothingRequested | internal/sync/engine.go:322-325 | after convergence a manifest leads to no request and changes no file |
| Engine.Engine.Collect | internal/sync/engine.go:296-321 | the deciding loop, renaming in place, does what the fold over the entries says; what is needed are paths of visible entries, in the order of the manifest, each entry once at most |
| Engine.Engine.ReceiveFiles | internal/sync/engine.go:338-364 | files, unread messages and acknowledgements after the receiving loop, when it completes and when it fails |
| Engine.Engine.ApplyManifest | internal/sync/engine.go:296-369 | files, unread messages and everything written to the connection; no request when nothing is needed |
| Engine.Engine.ReceiveFile | internal/sync/engine.go:407-451 | the whole outcome of one receiving call, with its acknowledgement |
| Engine.Engine.SendFiles | internal/sync/engine.go:453-512 | what is added is, in the order of the request, one final chunk with the whole content for every path asked for that exists, can be read and is not ignored, and nothing else |
| Engine.FirstFinalWins | internal/sync/engine.go:423-449 | the first final chunk for the path decides: its data alone is installed, nothing else but the temporary file changes |
| Engine.NoFinalFails | internal/sync/engine.go:407-422 | without one the call fails having read everything, and only the temporary file can have changed |
| Engine.SessionLeaves | internal/sync/engine.go:344-364 | a session that completes leaves everything behind the final chunk of its last path unread, one that fails has read all there was |
| Engine.RealTestHidesTemps | internal/sync/engine.go:597-608 | the names that `receiveFile` writes to are hidden by the real test for temporary names |
| Engine.AnswerChunks | internal/sync/engine.go:479-507 | the answer's chunks are the sendable paths in order, all final |
| Engine.ReceivesThePrefix | internal/sync/engine.go:344-364 | however the chunks that arrive are interleaved with other messages, exactly the longest deliverable prefix is installed, with the provider's content; the connection ends with the first chunk that is too large |
| Engine.EndToEnd | internal/sync/engine.go:296-512 | decision, request, answer and installation together: the session completes if and only if all that is wanted can be delivered, and the receiver then has the path-by-path result, temporary names aside |
| Ignore.MatchSegmentsFlexible | internal/ignore/ignore.go:137-162 | terminates, and is true if and only if run lengths for the `**` exist under which every other segment globs its component |
| Ignore.MatchSegments | internal/ignore/ignore.go:96-135 | decides the branches, the backtracking one by its declarative meaning |
| Ignore.MatchPathPattern | internal/ignore/ignore.go:81-94 | a directory pattern matches if and only if it matches some leading part of the path |
| Pruning.PlainMatchIff | internal/ignore/ignore.go:69-79 | a literal pattern without `**` matches by the last component if it is a bare name, otherwise exactly the path it spells |
| Pruning.SingleMatchIff | internal/ignore/ignore.go:69-79 | for any glob, a single segment is matched against the last component and against the whole path, and with a slash behind it taken literally for the first component |
| Ignore.IsIgnored | internal/ignore/ignore.go:50-67 | true if and only if the path is not empty and some pattern without `!` matches it and no later pattern does |
| Ignore.LastWord | internal/ignore/ignore.go:57-65 | a pattern at the end of the list decides for whatever it matches, `!` against and others for ignoring, and changes nothing else |
| IgnoreExact.PlainIff | internal/ignore/ignore.go:123-134 | without `**` the matcher is exact |
| IgnoreExact.LeadingStarsIff | internal/ignore/ignore.go:105-108 | what a leading `**` stands for and what the suffix comparison accepts |
| IgnoreExact.TrailingStarsIff | internal/ignore/ignore.go:109-121 | what a trailing `**` stands for and what the prefix, part and containment tests accept |
| IgnoreExact.MiddleStarsIff | internal/ignore/ignore.go:122-134 | exact, but for paths of the pattern's own length that begin right |
| IgnoreExact.NeverUnderMatches | internal/ignore/ignore.go:96-135 | for literal patterns with at most one `**`, every path the pattern stands for is accepted by whichever branch is taken |
| IgnoreExact.InnerStarsNeverUnderMatch | internal/ignore/ignore.go:122-134 | whatever its segments and however many `**` it has, a pattern that neither begins nor ends with a `**` among others never misses a path it stands for |
| IgnoreExact.InnerStarsIff | internal/ignore/ignore.go:122-134 | for any glob and any segments with a `**` at neither end: exact for paths of another length, and for those of the same length decided by the segments before the first `**` |
| IgnoreExact.AlignsWithin | internal/ignore/ignore.go:137-162 | a pattern with `**` at both ends stands for the paths that have what is between them somewhere inside |
| IgnoreExact.BothEndsIff | internal/ignore/ignore.go:105-108 | what such a pattern accepts, and exactly which paths it misses, for any glob and any segments between |
| IgnoreExact.LeadingAnyIff | internal/ignore/ignore.go:105-108 | for any glob and any segments after a leading `**`: what it stands for, what is accepted, and exactly which paths are missed |
| IgnoreExact.TrailingAnyIff | internal/ignore/ignore.go:109-121 | the same for any segments before a trailing `**` |
| IgnoreExact.BothEndsUnderMatch | internal/ignore/ignore.go:105-108 | an instance of a missed path |
| Walk.PrunedWalkIff | internal/sync/engine.go:160-214 | the walk that skips directories equals the plain filter on every tree if and only if nothing kept lies below a skipped directory |
| Walk.ListedIff | internal/sync/engine.go:160-214 | a manifest lists exactly the files that a way through the tree leads to, that are not symbolic links, not temporary and not ignored, and with no directory on the way ignored as it is, with `/` or with `/**` behind it |
| Walk.FlatIff | internal/sync/engine.go:197-199 | the plain filter lists exactly the regular files that are neither temporary nor ignored |
| Walk.WalkListsOnce | internal/sync/engine.go:160-214 | no path is listed twice |
| Walk.WalkAllInOrder | internal/sync/engine.go:169-212 | files are listed in the order of the tree, entry by entry and each directory as a whole |
| Walk.FolderManifestIsRestriction | internal/sync/engine.go:160-214 | a top-level folder's manifest is the full one restricted to it, under any pattern list that leaves the root |
| Pruning.ParseDirPatterns | internal/ignore/ignore.go:27-48 | what the two forms of directory pattern parse to |
| Pruning.ParseOfWritten | internal/ignore/ignore.go:27-48 | reading back what is written down, with space around it, gives the mark of negation, the segments and the mark of a directory |
| Pruning.BlankMatchesNothing | internal/ignore/ignore.go:29-32 | a blank entry matches nothing |
| Pruning.DirMatchIff | internal/ignore/ignore.go:69-94 | a directory pattern matches exactly the paths that begin with its components |
| Pruning.TreeMatchIff | internal/ignore/ignore.go:109-121 | what a directory followed by `**` matches |
| Pruning.DirPatternsPruneFaithfully | internal/sync/engine.go:160-214 | for lists of such patterns the walk lists exactly the files that a way through the tree leads to, that are not symbolic links, not temporary and not ignored, once each, in every tree |
| Pruning.BareNameOverPrunes | internal/sync/engine.go:172-190 | a bare name skips a directory whose files are not ignored by their own paths |
| BareNames.BareNamesPruneFaithfullyIff | internal/sync/engine.go:172-195 | for lists of bare names and directory patterns, with the real test for temporary names, the walk is the plain filter in every tree if and only if every bare name has its `name/**` in the list |
| Pruning.ReceivedNamesAreTemp | internal/sync/engine.go:597-608 | the name a file is received under is temporary, whatever the file |
| Pruning.ReceivedNamesNeverListed | internal/sync/engine.go:197-199 | no file that is still being received is in a manifest, under any list of patterns and in any tree |
| Pruning.TempIff | internal/sync/engine.go:597-608 | a path is temporary if and only if its last component begins with one of the two marks or ends, in any case of letters, with one of the five endings |
| CatchUp.Scanner.Build | internal/sync/engine.go:160-214 | lists the walk and records each file |
| CatchUp.Scanner.ScanNode | internal/sync/engine.go:622-664 | lists and records exactly the files whose size or time changed |
| CatchUp.Scanner.Run | internal/sync/engine.go:612-683 | nothing is scanned when this side cannot send or has no peer |
| CatchUp.DeltaIsChanged | internal/sync/engine.go:643-663 | looking at the index while it is updated is looking at the old index |
| CatchUp.DeltaListsIff | internal/sync/engine.go:648-664 | the scan lists, in walk order, exactly the files that the index does not have or has with another size or another time |
| CatchUp.ReindexRecords | internal/sync/engine.go:204-209 | a full scan records every file it lists |
| CatchUp.IndexAfter | internal/sync/engine.go:643-663 | what the index says of each listed file after the scan: its size and time, and the recorded digest if those were the same before |
| CatchUp.DeltaRefinesFullIff | internal/sync/engine.go:612-683 | the old index overlaid with the delta is the full manifest on existing files if and only if equal size and time mean equal content |
| DeltaPush.ExchangeApplies | internal/sync/engine.go:296-364 | a one-way exchange of any list of the sender's files leaves the receiver with exactly the listed digests on top of its own |
| DeltaPush.DeltaServesReceiversIff | internal/sync/engine.go:612-683 | every one-way receiver that agreed with the old index has, after `applyManifest` of the incremental manifest, the same contents as after the full one, if and only if equal size and time mean equal content |
| CatchUp.SecondScanIsSilent | internal/sync/engine.go:657-663 | scanned again, the same tree announces nothing |
| Debounce.TopLevelFolderIs | internal/watcher/watcher.go:105-111 | a file under the root is the root's, anything deeper its top directory's |
| Debounce.NoEventIsLost | internal/watcher/watcher.go:113-131 | in every state before a close, a folder with an event that no later callback covered has a timer whose callback is still to come; callbacks never outnumber events |
| Debounce.EventLeavesOneTimer | internal/watcher/watcher.go:119-131 | after an event the folder has exactly one armed timer, the new one |
| Debounce.AllEnteredIff | internal/watcher/watcher.go:113-131 | every armed timer stays the one entered for its folder unless a callback removes the entry of a timer set after its own |
| Debounce.CloseIsFinalIff | internal/watcher/watcher.go:133-141 | no callback comes after a close in any continuation if and only if every timer yet to call back is armed and still entered for its folder |
| Debounce.CallbackAfterClose | internal/watcher/watcher.go:121-130 | a run with a callback after the close |
| Debounce.Watcher.ScheduleFolder | internal/watcher/watcher.go:113-131 | the folder's old timer is stopped if it had not fired, a new one is entered, all others stay; nothing after a close |
| Debounce.Watcher.EnterCallback | internal/watcher/watcher.go:123-125 | the callback removes the folder's entry, whichever timer that is |
| Debounce.Watcher.CloseAll | internal/watcher/watcher.go:133-141 | every pending timer is stopped if it had not fired |
| Approval.NoLostWakeup | internal/approval/approval.go:37-70 | in every reachable state no channel was closed twice, and a blocked caller's folder is approved if and only if its channel is closed or held by a running approval of that folder |
| Approval.ReturnsOnlyWhenApproved | internal/approval/approval.go:37-59 | in ask_folder mode a caller returns only after its folder was approved |
| Approval.AutoNeverBlocks | internal/approval/approval.go:37-40 | in auto mode no caller ever waits |
| Approval.AtRest | internal/approval/approval.go:37-70 | when nobody is running, the blocked callers are exactly those of folders not approved |
| Approval.ApprovalQueue.Enter | internal/approval/approval.go:37-48 | returns at once if and only if the mode is auto or the folder approved, otherwise queues a new open channel last |
| Approval.ApprovalQueue.Release | internal/approval/approval.go:62-70 | approves the folder and closes exactly its channels, each once |

## Left out

- TLS, mDNS, SQLite, fsnotify, service installation, the command line, TOML, logging and status text: input and output,
  or wrappers over libraries that are not part of this model.
- Authentication of a relay connection and the rejection of an incomplete REGISTER: a handler starts in the model when
  its registration has been accepted.
- Real time: ping intervals, idle deadlines, backoff, the length of the debounce interval; and fairness. Safety and
  decreasing measures are proved, not that anything happens within a time.
- Deadlock freedom of bidirectional groups on one connection: two receivers can each discard the other's request. For
  the same reason it is not claimed that every manifest is applied.
- The engine's peer table (`internal/sync/engine.go:57-94`) and folder approval before a broadcast.
- Failing local writes, permission errors, walk errors, symbolic links beyond being skipped, clashes between files and
  directories, path case, and several sessions writing one destination.
- Failing writes to a connection in `Engine` and `Transfer`: a connection there fails only by delivering no more.
- Messages other than chunks that are larger than 64 MiB, such as the manifest of a very large tree; and chunks of 4 GiB
  and more, for which the header wraps: they are treated like all others that are too large.
- Newest-wins across three or more replicas, or with edits during an exchange.
- Tunnel.TunnelRefinesStream: both sessions stay mapped at the relay for the length of a run, and a DATA body, which
  carries its payload in JSON, stays under the relay's own 64 MiB limit; frames the relay drops otherwise are not modelled.
- RelayHub.TablesAlways: `out` is what was written or attempted; a write to another session's socket that fails is not
  told apart, except in forwarding, where it closes the target.
- RelayView.ClientViewIsTheRoomIff: takes registration and departure as one event each, which is how `RelayHub` behaves
  when handlers take turns; how the view departs from the room at lock granularity is in `RelayDrift.GoesWrongIff`.
- Reconcile.NothingIsLost: leaves aside the temporary names `receiveFile` writes to, which `EndToEnd` subtracts.
- Pruning.ReceivedNamesAreTemp: lower-casing is modelled for the letters that become ASCII, which is all the suffixes need.
- Pruning.DirPatternsPruneFaithfully: the directory names are free of metacharacters.
- Debounce.NoEventIsLost: an event counts as covered by any callback for its folder that starts after it.
