# Tic-tac-toe server and client: a verified model

The repository is a C server and a Java client that play tic-tac-toe over TCP. They agree on byte
streams without any tags: what a value means follows from its position alone. This project models the
match protocol, the lobby with its recycled session identifiers, the containers underneath and the
framing of requests, and proves what the two programs rely on each other for.

## How it is laid out

* `Board`, `ServerGrid`, `TrisGame` - the nine cells; the server's grid checks as loops on a 3x3 array;
  the client's board class.
* `Protocol` - one match as a state machine of three parties and four FIFO channels. Every send, read,
  click and answer is a step of its own, so a run is any interleaving, over any number of rematches.
  `Run` folds a list of actions; nothing bounds its length.
* `ProtocolInvariant` - the inductive invariant. Whatever a client is still going to read (its channel,
  and behind it what the server is already committed to send) is drained into the client ahead of time;
  the drained clients stand in one of four simple relations to the server.
* `ProtocolTheorems`, `ProtocolProgress`, `EarlyClick` - what follows for every reachable state.
* `MatchServer`, `GameClient` - the server's nested loops and the client's reader, callbacks, click and
  rematch handlers as classes changed in place. The server records each statement as a protocol action
  and is proved to perform a run of the machine; each client handler is proved to do what the machine's
  client does.
* `Bytes`, `WireMatch` - the same protocol on bare bytes, proved to be in step with the machine above.
* `Framing` - requests from the Java encoders to the C decoders, with the blocking reads on a socket
  that cuts the stream into arbitrary chunks.
* `IdPool`, `DynamicArray`, `StoreLaws`, `Registry`, `Lobby`, `LobbyServer` - identifiers, the growing
  and shrinking array, their lockstep, and the bindings of players to sessions; the classes in
  `IdPool`, `DynamicArray` and `LobbyServer` are the in-place code, the rest is about what they compute.
* `ChainLedger` - the doubly linked list with removal in the middle; `Sequences` - reversal.

## Assumptions

* Socket numbers are distinct and positive (and below 2^31 where bytes matter).
* The player does not click on a board that already shows a completed line. `manageGame` makes sure of
  it by its order (`EarlyClick.PatientClientSeesNoLine`); the window raises its token one message
  earlier and does not check. `EarlyClick.ClickSafeIffNoLine` shows that the condition is exact and
  `EarlyClick.EarlyClickReachable` that the window really gets into the failing position.
* Callbacks of the window run in the order in which the reader queues them, before the next value is
  read.
* A lobby handler is one step. A join is served on a pending session, and a player in a match cannot
  leave, because the match holds its stream.

## Where the code does not do what it seems to

* The server checks no move. That its grid stays legal is a property of the two clients together with
  the order of messages (`ProtocolTheorems.LegalityByComposition`); the documentation
  (Documentazione.tex:247) speaks of a check on the server, the model follows the code.
* The offset check of an implant is one too weak (`StoreLaws.ImplantOverrunsIff`), and a shrinking
  excision followed by the reuse of a high identifier gets there: `Registry.ShrinkingLosesRoom` is a run
  of four creations, three closings and two creations. `Registry.ShrinkingFailsAnOpening` is one after
  which a creation fails; its identifier is lost for good, as it is when a creation brings no usable
  name (`Lobby.LostForGood`). `Registry.OpenSucceedsIffRoom` gives the exact condition, and up to the first shrink or the first
  lost identifier it always holds (`Registry.OrderlyRunsStayInLockstep`).
* Excising an empty slot, or implanting over a live one, moves the count of occupied slots away from the
  number of entries (`StoreLaws.ExciseKeepsCountIff`, `StoreLaws.ImplantKeepsCountIff`).
* Extraction asks for a compaction every time and never gets one, because a popped slot keeps its bytes
  (`StoreLaws.StacksNeverShrink`).
* The serving and the refusing path of a join consume the same bytes exactly when the name has at most
  64 bytes (`Framing.JoinPathsAgreeIffShort`); the client does not limit it
  (`Framing.LongJoinDerailsRefusal`).
* The opcode is read once and not repeated. Arriving in two pieces it is taken for the previous opcode
  (`Framing.SplitOpcodeRepeatsPrevious`), and a request is recovered exactly when the first read brings
  its opcode whole (`Framing.RecoveredIffOpcodeWhole`).
* Released identifiers come back in reverse order exactly when all of them found room in the pool
  (`IdPool.LastInFirstOut`).

## Model

| member | source | states |
|---|---|---|
| `ServerGrid.ValidateHorizontal` | Server/server.c:282-297 | the flag loop answers 1 exactly when some row is all the target |
| `ServerGrid.ValidateVertical` | Server/server.c:299-314 | the same for columns |
| `ServerGrid.ValidateDiagonal` | Server/server.c:316-336 | the same for the two diagonals |
| `ServerGrid.CalculateSessionVictor` | Server/server.c:338-370 | the answer is a pure function of the grid as it stands, whose meaning the Board lemmas give |
| `ServerGrid.WipeTopologicalGrid` | Server/server.c:372-380 | all nine cells are free afterwards |
| `ServerGrid.WriteCell` | Server/server.c:426-427 | the C row and column arithmetic writes wire cell n and no other |
| `Board.VictorMeaning` | Server/server.c:338-370 | with at most one line owner the answer does not depend on the order of players or checks; winner, -1 and -2 mean what they should, both ways |
| `Board.OnlyMoverGainsLine` | Server/server.c:426-441 | on a board without lines a move can only give the mover a line |
| `Board.ClientWinnerMeaning` | Client/src/main/java/tristrick/client/util/TrisGame.java:171-195 | the client's table search reports mark 1 or 2 iff that mark owns a line |
| `Board.WinnerAlgorithmsAgree` | Client/src/main/java/tristrick/client/util/TrisGame.java:153-195 | under the mark map the client's winner and full checks give the server's verdict, all four outcomes, both ways |
| `TrisGame.TrisGame.MakeMoveUI` | Client/src/main/java/tristrick/client/util/TrisGame.java:97-111 | accepted iff the coordinate is a free cell, which then holds the local mark; otherwise nothing changes and the error tells which check failed |
| `TrisGame.TrisGame.ApplyOpponentMove` | Client/src/main/java/tristrick/client/util/TrisGame.java:113-125 | a free cell gets the other mark; an occupied one is silently left alone, an outside one is an error |
| `TrisGame.TrisGame.SetMyMark` | Client/src/main/java/tristrick/client/util/TrisGame.java:76-83 | only marks 1 and 2 are taken |
| `TrisGame.OppMark` | Client/src/main/java/tristrick/client/util/TrisGame.java:89-95 | own and opponent's mark are together 1 and 2 |
| `TrisGame.TrisGame.IsBoardFull` | Client/src/main/java/tristrick/client/util/TrisGame.java:153-169 | the loop answers whether no cell is free |
| `TrisGame.TrisGame.CheckWinner` | Client/src/main/java/tristrick/client/util/TrisGame.java:171-195 | the loop over the eight lines finds the first one of one mark |
| `ProtocolInvariant.StepKeepsInv` | Server/server.c:382-601 | every step of any party keeps the invariant |
| `ProtocolInvariant.RunKeepsInv` | Server/server.c:390-480 | so does every run, rematches included |
| `ProtocolInvariant.SendKeepsPending` | Server/server.c:398-452 | a send only moves a value the client was already going to read; nothing overtakes or gets lost |
| `ProtocolTheorems.BoardAgreement` | Server/server.c:391-480 | in every reachable state of a game, boards brought up to date with unread messages and moves in flight are the mark image of the server's grid |
| `ProtocolTheorems.QuietBoardsAgree` | Client/src/main/java/tristrick/client/gui/GameController.java:190-217 | with nothing in flight a client's board is the mark image of the grid as it stands |
| `ProtocolTheorems.ClientStreamPhase` | Client/src/main/java/tristrick/client/util/GameClient.java:168-204 | each value is read as the kind it was written as, only when one is due, and a move read hits a free cell |
| `ProtocolTheorems.ServerStreamPhase` | Server/server.c:411-422 | what the server reads as a move was written as a move, what it reads as a rematch answer was written as one |
| `ProtocolTheorems.RefusalLeavesNothing` | Server/server.c:578-588 | after a refusal nothing from the clients is in the streams, so the next opcode read starts on a frame; once both read it, all four channels are empty |
| `ProtocolTheorems.TurnSafety` | Server/server.c:403-437 | only the player the server is reading can move |
| `ProtocolTheorems.SessionFieldsFollow` | Server/server.c:432-462 | turn index and lifecycle state track the loop; after a won game the index is the winner's socket |
| `ProtocolTheorems.ChannelBounds` | Server/server.c:398-452 | at most one message in flight from a client, at most four towards it |
| `ProtocolTheorems.LegalityByComposition` | Server/server.c:422-427 | every unchecked grid write hits a cell in 1..9 that is still free |
| `ProtocolTheorems.MovesUseUpVacancies` | Server/server.c:409-456 | between agreed rematches moves and free cells add up to a constant, so a game has at most nine moves |
| `ProtocolTheorems.VerdictSoundness` | Server/server.c:439-451 | at most one line owner in every reachable grid, none while the game is open, and the owner moved last |
| `ProtocolTheorems.OutcomesAgree` | Client/src/main/java/tristrick/client/gui/GameController.java:220-237 | both windows show the same result: exactly one win, or two draws, as each client's own board says |
| `ProtocolTheorems.RematchAgreement` | Server/server.c:561-601 | approval iff both asked; both clients will read the same word and go on, or leave, together |
| `ProtocolTheorems.BlankStart` | Client/src/main/java/tristrick/client/gui/GameController.java:190-198 | every game starts on blank boards; a client that reads its marker is in a running game, with mark 1 and both tokens iff the server drew it as the starter |
| `ProtocolTheorems.RematchIsInitial` | Client/src/main/java/tristrick/client/gui/GameController.java:119-146 | once both clients wait for the next turn marker the system is in an initial state |
| `ProtocolTheorems.RematchForgetsThePast` | Server/server.c:474-480 | from two initial states with any different pasts the same actions give the same grids, messages and boards |
| `ProtocolProgress.NoDeadlock` | Server/server.c:409-437 | no reachable state is stuck before both clients have left |
| `ProtocolProgress.GamesEnd` | Server/server.c:390-480 | without a restart no schedule goes on for more than 124 steps, 108 from the draw of a starter |
| `EarlyClick.ClickSafeIffNoLine` | Client/src/main/java/tristrick/client/gui/GameController.java:148-157 | a click the window forwards keeps the protocol intact iff the board shows no completed line |
| `EarlyClick.PatientClientSeesNoLine` | Client/src/main/java/tristrick/client/util/GameClient.java:223-263 | a client that waits for the status first never sees a line when it may move |
| `EarlyClick.ClickOnLineSpoilsEveryRun` | Server/server.c:561-623 | on the bytes, in every run after the failing click: the player's answer is read as 0, the verdict is a refusal, and no game starts again |
| `EarlyClick.BorderIsRestored` | Server/server.c:742-788 | at the end of every such run the stream holds exactly the move's low half and the player's own answer, if given: together one unknown opcode, behind which the next request is recovered |
| `EarlyClick.HalfIsNoOpcode` | Server/server.c:742-788 | either of the two shorts, read alone, is an unknown opcode too, and nothing behind it is touched |
| `EarlyClick.StrayMoveIsReadAsAnswer` | Server/server.c:603-623 | the poll takes the two zero bytes of the move and leaves its other two; whatever the opponent answers, the server refuses |
| `EarlyClick.EarlyClickReachable` | Client/src/main/java/tristrick/client/gui/GameController.java:209-217 | a concrete run into that position, up to the server's rematch question |
| `EarlyClick.PlayableReachable` | Server/server.c:393-456 | every open position, whoever starts, is reached by the protocol |
| `MatchServer.MatchSession.ExecuteCoreLoop` | Server/server.c:382-480 | the nested loops perform a run of the machine's server actions and stop only when none is left |
| `MatchServer.MatchSession.AnnounceTurn` | Server/server.c:393-405 | the drawn player starts, both get its socket as turn marker, and these are three server actions |
| `MatchServer.MatchSession.ServeTurn` | Server/server.c:409-456 | one turn, from the received coordinate to the second status, is a run of server actions |
| `MatchServer.MatchSession.ReportToSecondary` | Server/server.c:449-462 | the last send of a turn; a final status closes the game |
| `MatchServer.MatchSession.PollPlayer` | Server/server.c:554-559 | one polling thread takes one answer and leaves the other player's stream and answer alone |
| `MatchServer.MatchSession.InvokeRematch` | Server/server.c:561-601 | both answers, then one verdict for both; a rematch leaves the grid blank |
| `MatchServer.MatchSession.DecideAndTell` | Server/server.c:578-600 | approval exactly when both answers are approvals |
| `GameClient.GameClient.OnFirstTurn` | Client/src/main/java/tristrick/client/gui/GameController.java:190-198 | the callback does what the machine's client does with a turn marker |
| `GameClient.GameClient.OnOpponentMove` | Client/src/main/java/tristrick/client/gui/GameController.java:209-217 | the same for a move |
| `GameClient.GameClient.OnGameStatus` | Client/src/main/java/tristrick/client/util/GameClient.java:187-195 | the same for a status |
| `GameClient.GameClient.StartReader` | Client/src/main/java/tristrick/client/util/GameClient.java:168-204 | the reader loop equals positional consumption of its input, takes the final status as its last value, and otherwise leaves nothing unread |
| `GameClient.GameClient.DispatchDelta` | Client/src/main/java/tristrick/client/gui/GameController.java:148-165 | sends exactly on a raised token and a free cell, and then lowers the token |
| `GameClient.GameClient.PromptForSessionRefresh` | Client/src/main/java/tristrick/client/gui/GameController.java:110-136 | writes the answer as a word; plays on iff this player wanted to and the word read is approval |
| `Bytes.IntRoundTrip` | Client/src/main/java/tristrick/client/util/GameClient.java:380-383 | every signed 32-bit value survives the wire, whatever follows |
| `Bytes.ShortRoundTrip` | Client/src/main/java/tristrick/client/util/GameClient.java:387-396 | a short carries the low 16 bits |
| `Bytes.NetworkOrder` | Client/src/main/java/tristrick/client/util/GameClient.java:380-396 | most significant first: a word is its high and low short, a short its high and low byte |
| `Framing.FramesByteForByte` | Client/src/main/java/tristrick/client/util/GameClient.java:111-125 | the four frames with their opcodes and length fields |
| `WireMatch.StepOnWire` | Server/server.c:398-451 | on untagged bytes each action is possible exactly when it is on packets, and leads to the same place |
| `WireMatch.RunsOnWire` | Server/server.c:398-451 | so do whole runs: every theorem about reachable states holds on the wire |
| `WireMatch.WireRunsAreSafe` | Server/server.c:422-427 | no byte run writes outside the grid or makes two line owners |
| `Framing.FrameRoundTrip` | Server/server.c:756-787 | one request is recovered exactly, by the serving and by the refusing path, whatever follows |
| `Framing.StreamRoundTrip` | Server/server.c:742-792 | any list of requests is recovered exactly up to the first farewell; what follows it is left unread |
| `Framing.JoinPathsAgreeIffShort` | Server/server.c:852-910 | serving and refusing a join consume the same bytes iff the name's length field is at most 64 |
| `Framing.JoinOutcomes` | Server/server.c:876-905 | a free player's join for every length field: served, nameless, ended thread or starved, each iff |
| `Framing.LongJoinDerailsRefusal` | Client/src/main/java/tristrick/client/util/GameClient.java:306-315 | a join with a longer name, as the client writes it, is recovered when served; when refused the name stays in front of the next opcode |
| `Framing.SplitOpcodeRepeatsPrevious` | Server/server.c:744-760 | an opcode that arrives in two pieces repeats the previous one, with its second piece as payload |
| `Framing.RecoveredIffOpcodeWhole` | Server/server.c:744-788 | a request is recovered iff the first read brings all four bytes of its opcode, whatever the variable held before |
| `Framing.CreateServedIffShort` | Server/server.c:1057-1101 | a free player's creation for every length field: served iff the name has 1 to 64 bytes and is there, starved iff it is not all there, otherwise the thread ends; refusing takes the same bytes |
| `Framing.Socket.ConsumeExactBytes` | Server/server.c:145-177 | exactly the first n bytes for every chunking and every number of interruptions; on failure 0 iff the last recv found the link closed, -1 iff it faulted, else -2, and every recv before it went well |
| `Framing.Socket.DiscardNameBlock` | Server/server.c:860-871 | the refusing path takes length and name off the stream when the length is in range, the length alone otherwise |
| `Framing.Socket.ProcessActivation` | Server/server.c:846-915 | the stream part of a join takes what the decoder function says |
| `Framing.Socket.ProcessInstantiation` | Server/server.c:1057-1109 | the stream part of a creation |
| `Framing.Socket.Dispatch` | Server/server.c:742-788 | one pass of the dispatch, for every chunking, the opcode's own bytes included |
| `Framing.Socket.ServeLink` | Server/server.c:729-789 | the thread recovers any list of requests exactly, up to the first farewell, however the kernel cuts the payloads of each pass |
| `IdPool.IdGenerator.AcquireNewSessionIdentifier` | Server/server.c:44-56 | the top of the recycled stack, or else a new number |
| `IdPool.IdGenerator.RelinquishSessionIdentifier` | Server/server.c:58-64 | pushes while there is room, otherwise forgets |
| `IdPool.PoolSafety` | Server/server.c:39-64 | under any interleaving: held ids distinct, disjoint from the pool, pool distinct, all below the counter, and the counter accounts for every id |
| `IdPool.HighestIsPeak` | Server/server.c:44-64 | the counter is the largest number of ids held or lost at one time |
| `IdPool.PeakBound` | Server/server.c:44-64 | the same from a fresh server |
| `IdPool.PeakBoundWithoutDrops` | Server/server.c:44-64 | in a run without drops the counter is the largest number of ids held at one time |
| `IdPool.LastInFirstOut` | Server/server.c:48-62 | released ids come back reversed and the pool is restored iff all found room |
| `IdPool.TwentyOneOverflow` | Server/server.c:39-64 | 21 sessions opened and then closed from a fresh server: the pool is full and id 20 is forgotten |
| `IdPool.TwentyOneNotReversed` | Server/server.c:48-62 | with 20 places in the pool those ids do not come back in reverse |
| `DynamicArray.DynamicArray.ExpandStorageIfRequired` | Server/dynamic_array.c:54-103 | doubling, overflow checks and zero fill; a failure changes nothing |
| `DynamicArray.DynamicArray.AppendToStore` | Server/dynamic_array.c:105-132 | in place what the store function says |
| `DynamicArray.DynamicArray.ExtractTailFromStore` | Server/dynamic_array.c:134-166 | the last slot is handed over, its bytes stay, compaction may follow |
| `DynamicArray.DynamicArray.ImplantAtOffset` | Server/dynamic_array.c:168-205 | offset check, growth by the occupied count, write and count |
| `DynamicArray.DynamicArray.FetchFromOffset` | Server/dynamic_array.c:207-234 | a copy of the slot, or failure beyond the block |
| `DynamicArray.DynamicArray.ExciseAtOffset` | Server/dynamic_array.c:236-274 | the slot is cleared and the count goes down, whether or not anything was there |
| `DynamicArray.DynamicArray.EvaluateCompaction` | Server/dynamic_array.c:276-325 | the scan gives the upper half back iff the trigger slot was vacated and the half is empty |
| `StoreLaws.GrowingKeepsSize` | Server/dynamic_array.c:54-103 | capacity stays zero or the floor doubled k times and its bytes stay within SIZE_MAX |
| `StoreLaws.ShrinkingKeepsSize` | Server/dynamic_array.c:276-325 | the same through compaction |
| `StoreLaws.GrowsIff` | Server/dynamic_array.c:54-103 | the block changes on an append or implant iff every slot counts as occupied, then to twice its slots or the floor; failures likewise, with the size checks as products |
| `StoreLaws.ExciseShrinksIff` | Server/dynamic_array.c:276-325 | excising a live slot halves the block iff memory allows it, the slot was the last of the lower half, the block is above the floor and the upper half is empty |
| `StoreLaws.StacksNeverShrink` | Server/dynamic_array.c:134-166 | a popped slot keeps its bytes, so in no run of pushes and pops does the block shrink |
| `StoreLaws.ResizingKeepsEntries` | Server/dynamic_array.c:73-90 | growth and compaction change no entry |
| `StoreLaws.ImplantAddsEntry` | Server/dynamic_array.c:168-205 | the sparse use as a finite map: one entry more, and the count is the map's size |
| `StoreLaws.ExciseRemovesEntry` | Server/dynamic_array.c:236-274 | one entry less |
| `StoreLaws.ExciseKeepsCountIff` | Server/dynamic_array.c:236-274 | the count goes down in any case, so it stays the number of entries iff the slot was live |
| `StoreLaws.ImplantKeepsCountIff` | Server/dynamic_array.c:168-205 | the count goes up in any case, so it stays the number of entries iff the slot was empty |
| `StoreLaws.FetchIsLookup` | Server/dynamic_array.c:207-234 | fetching into a null receiver is map lookup |
| `StoreLaws.ImplantOverrunsIff` | Server/dynamic_array.c:174-184 | the write lands behind the block iff the offset is the capacity while a slot counts as free; success likewise characterised |
| `StoreLaws.AppendPushes` | Server/dynamic_array.c:105-132 | the dense use as a stack: append pushes, through growth |
| `StoreLaws.ExtractPops` | Server/dynamic_array.c:134-166 | extract pops, through compaction, and fails iff empty |
| `StoreLaws.PopUndoesPush` | Server/dynamic_array.c:105-166 | a pop undoes a push |
| `StoreLaws.AppendsAreCheap` | Server/dynamic_array.c:79-89 | n appends zero-fill fewer than 2n slots in all and leave exactly the n values |
| `StoreLaws.AppendsMerge` | Server/dynamic_array.c:105-132 | under every schedule the store gains a merge that splits into exactly one pointer per turn of each thread, in that thread's order |
| `StoreLaws.AllAppendsArrive` | Server/dynamic_array.c:105-132 | a schedule that runs the threads to their end leaves all their pointers, each thread's in its own order |
| `Registry.OpenSucceedsIffRoom` | Server/server.c:1074-1121 | acquiring and implanting succeeds, fails or overruns exactly according to where the id falls and whether the array can grow |
| `Registry.OpenAccounts` | Server/server.c:1074-1129 | a success adds one session in its own slot and keeps the accounts of ids |
| `Registry.LeakAccounts` | Server/server.c:1074-1121 | a creation that ends after acquiring its id changes no session, and the accounts name the lost id |
| `Registry.CloseAccounts` | Server/server.c:505-513 | closing removes one session and keeps the accounts, dropped or not, shrunk or not |
| `Registry.OrderlyRunsStayInLockstep` | Server/server.c:44-64 | up to the first drop or shrink every opening succeeds in bounds and the lockstep holds |
| `Registry.OrderlyFromStart` | Server/server.c:39-64 | the same for every orderly run of a server that has just started |
| `Registry.LockstepMeans` | Server/server.c:508-513 | live and pooled ids partition 0..highest-1, and occupied counts the live sessions |
| `Registry.ShrinkingLosesRoom` | Server/dynamic_array.c:174-184 | a run after which the next creation writes behind the block |
| `Registry.ShrinkingFailsAnOpening` | Server/server.c:1117-1121 | a run after which the next creation fails and loses its id |
| `Lobby.OneSessionPerPlayer` | Server/server.c:1134-1135 | no player in two sessions; -1 exactly when no session names the player, otherwise the one that does |
| `Lobby.StartIs` | Server/server.c:846-989 | a join: a bound player is refused, an unknown id or a declining master changes nothing, an approval starts exactly that session and binds exactly its master and the joiner |
| `Lobby.CreationIs` | Server/server.c:1044-1135 | a creation: a bound player is refused and no id is touched; otherwise, with a name and room, a new pending session under an unused id, and nothing else changes |
| `Lobby.FailedCreationLosesId` | Server/server.c:1074-1121 | without a usable name or without room the id is taken and lost: in no session, not in the pool, and not the next one issued |
| `Lobby.LostForGood` | Server/server.c:1074-1121 | in no later run does a session get a lost id |
| `Lobby.CreateKeeps` | Server/server.c:1044-1135 | a creation succeeds or changes no session and no binding, also when its name is unusable or its implant fails, and keeps the invariant either way |
| `Lobby.RunsKeepLobbyInv` | Server/server.c:846-994 | the bindings survive every run of create, start, decline, end and leave, failed creations included |
| `Lobby.EveryRunBindsOnce` | Server/server.c:1134-1135 | so in every run from the start of the server nobody is in two sessions, and the active session is -1 or the one that names the player |
| `Lobby.EndFreesBoth` | Server/server.c:482-513 | the end of a match frees both players, removes that session and touches nobody else |
| `Lobby.LeaveIs` | Server/server.c:812-841 | the cleanup loop closes exactly the leaving player's pending session |
| `Lobby.SmoothRunsStaySound` | Server/server.c:1057-1135 | while no id is lost and nothing shrinks, every step is possible, so every creation stays in bounds; bindings and lockstep together; a free player's creation with a usable name always succeeds |
| `Lobby.SmoothFromStart` | Server/server.c:1057-1135 | the same for every such run from the start of the server |
| `LobbyServer.LobbyServer.ProcessInstantiation` | Server/server.c:1044-1152 | the handler on the shared objects does what the lobby step says, with the id acquired before the name is read |
| `LobbyServer.LobbyServer.ProcessActivation` | Server/server.c:930-989 | an unknown id is declined; otherwise the master's answer binds both players or changes nothing |
| `LobbyServer.LobbyServer.FinishMatch` | Server/server.c:482-513 | both freed, slot excised, id released only if the excision succeeded |
| `LobbyServer.LobbyServer.Cleanup` | Server/server.c:829-841 | the scan over all slots, with the bound read anew, equals the purge the lobby step uses |
| `ChainLedger.ChainLedger.PushToChain` | Server/queue_list.c:53-90 | appends; an allocation failure changes nothing |
| `ChainLedger.ChainLedger.PopFromChain` | Server/queue_list.c:92-120 | removes the front, fails iff empty |
| `ChainLedger.ChainLedger.PeekChain` | Server/queue_list.c:122-135 | the front, fails iff empty |
| `ChainLedger.ChainLedger.ExciseTailChain` | Server/queue_list.c:137-171 | removes exactly the first match, fails iff there is none, and all links are right again |
| `ChainLedger.ChainLedger.ExciseOffsetChain` | Server/queue_list.c:173-223 | hands over and removes the element at the offset, fails iff out of range |
| `ChainLedger.ChainLedger.Unlink` | Server/queue_list.c:147-159 | the relinking at head, tail, middle and singleton removes exactly one position |
| `ChainLedger.ChainLedger.WalksAreReverses` | Server/queue_list.c:53-135 | forward and backward walk are exact reverses that end at null links, no cycle, no sharing, both ends empty together |
| `ChainLedger.RunOperations` | Server/queue_list.c:53-223 | any run of operations leaves a well-linked chain for the same run on a sequence |

## Left out

- MatchServer.MatchSession.ExecuteCoreLoop: lost connections, faults and timeouts in mid-match; the loop stops where its thread would wait. The deallocation of the session afterwards is in `Lobby`.
- GameClient.GameClient.DispatchDelta: a failing write; and the disabled buttons of a finished game, which the protocol has as `MayClick`.
- Framing.Socket.ServeLink: opcodes whose four bytes arrive apart, with which a list is not recovered; `Framing.Socket.Dispatch` covers a pass with one, and `Framing.RecoveredIffOpcodeWhole` shows that the condition is exact.
- Framing.CreateServedIffShort: a negative length is taken to end the thread, as a failed allocation does; the length -1, for which the allocation of zero bytes may succeed, is not followed further.
- Framing.JoinPathsAgreeIffShort: the same for the negative length of a join.
- LobbyServer.LobbyServer.ProcessInstantiation: failing allocations other than the array's own size checks; an overrun is reported, not followed further.
- Lobby.RunsKeepLobbyInv: what follows a write behind the array's block. A player whose creation ended its thread is allowed to act on, which only adds runs.
- Registry.OrderlyRunsStayInLockstep: the lockstep after the first shrink or the first dropped identifier, where it can fail; `Registry.OpenSucceedsIffRoom` says when.
- Lobby.EveryRunBindsOnce: finer interleavings of handlers, such as two joiners waiting for one master or a release before its excision.
- The player registry as a whole: it appends densely and excises sparsely, and the two disciplines are proved separately.
- Sockets, timers, thread creation, memory release and `EINTR` without end: environment.
- The windows, styles and dialogs, the list polling, and the JSON listings and log output.
- The console board of `TrisGame.makeMove` and `setMove`, which only the console variant uses.
- `relinquishSessionIdentifier` as called by threads that do not hold the identifier.
