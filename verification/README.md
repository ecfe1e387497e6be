# A verified model of the Ableton Live bridge

This project models, in Dafny, the stateful core of an MCP server for Ableton Live: the Remote Script that runs inside
Live's UI thread, the client that talks to it over a socket, and the algorithmic pieces around them. `dafny verify
dfyconfig.toml` proves everything below. Nothing here runs the original program.

One file models one source file or component:

| file | what it models |
|---|---|
| `Wrappers.dfy`, `LiveHost.dfy`, `Cues.dfy` | cue points: a host that applies writes late and offers one toggle, and the step protocol over it |
| `Preconditions.dfy`, `Dispatch.dfy`, `Processor.dfy` | batch admission; what a request does; the request queue that advances one suspended request per UI tick inside undo steps |
| `Framing.dfy`, `BridgeClient.dfy`, `Apply.dfy` | line framing; the client's connection epochs, retries and capability cache; the guarded apply |
| `Catalog.dfy`, `Curation.dfy` | the restartable corpus catalog; the round-robin selection under two caps |
| `JsonText.dfy`, `CanonicalText.dfy`, `Canonical.dfy`, `Replacement.dfy` | canonical JSON: the printer and its unique readability; normal forms; what may stand for what inside a value |
| `Browser.dfy` | the bounded browser search |
| `Diff.dfy`, `DiffPaths.dfy` | the structural snapshot diff; how its paths are printed |
| `Curve.dfy`, `Fade.dfy` | automation curves; the timed fade and the shared deadline |
| `Ratchet.dfy` | the quality gate's baseline and ratchet |
| `Realtime.dfy`, `Groups.dfy` | the realtime control channel; the group-cycle check |

Objects whose methods update their fields are classes, generators that live across UI ticks are methods over an explicit
`Tick`, loops are loops with invariants, and each is proved against a specification whose own properties are lemmas.

## Findings

These are places where the stronger statement one might expect is false of the code. Each is proved with its exact
condition or with a concrete input.

- A reversed toggle restores the locators exactly if and only if the locator it flipped stood on the grid
  (`Cues.SharpReversal`); `Cues.OffGridLocatorMoves` is a locator that comes back moved and is still reported as
  `CUE_SNAPPED_TO_GRID`.
- A failed cursor restore replaces the outcome of a cue operation and leaves the quantization off
  (`Cues.CreateCuePoint`, `Cues.DeleteCuePoint`).
- An item of a bulk creation that reports PLAYHEAD_NOT_MOVED has left a locator behind, or taken one away, if and only if
  the place it names is not the item's own: the cursor got stuck while a toggle was being reversed (`Cues.BulkItem`; such an
  effect: `Cues.StuckReversalLeavesLocator`). On an orderly grid this is the only way for a failed item to leave a trace
  (`Cues.BulkCreateCuePoints`).
- A batch that aborts at its first command is reported as `committed`; among executed batches whose undo step can be
  closed this is exactly the case in which `committed` does not mean that everything was carried out
  (`Apply.CommittedButNotWritten`; a host where it happens: `Apply.CommittedWithoutClip`).
- A batch that was executed, clip and notes included, is reported as `rejected` if and only if the answer came too late or
  its undo step cannot be closed (`Apply.RejectedButExecuted`; hosts where it happens: `Apply.WrittenButRejected`).
- Where Live cannot end undo steps, every step that is opened stays open; after all requests are answered the depth is
  zero if and only if Live can end steps or no accepted request passed its gate as a mutation that is not a dry run
  (`Processor.RequestProcessor.ServeAll`; a run that leaks one: `Processor.LeakOneStep`).
- Stat-only reuse confuses one pair of states: a scan leaves the table of a derivation from scratch if and only if it finds
  no empty file with modification time zero where the table holds, and the scan may keep, the different error row of a path
  that led out of the root or nowhere (`Catalog.FromScratchUnlessConfused`; an input: `Catalog.UnreachableRowIsKept`).
- A browser search that reached neither of its bounds can still miss a match within its depth, when an address repeats at
  different depths (`Browser.RepeatedItemHidesAMatch`). It is complete if and only if the children of skipped repetitions
  were visited elsewhere; where equal addresses stand above equal addresses, only repetitions first visited at the depth
  limit matter (`Browser.SearchIsCompleteIff`); and it is complete where every address with children stands at one depth
  (`Browser.SearchIsComplete`).
- Values with equal canonical JSON are not interchangeable in a list under `facets` or `required_projection_ids`: 1 and 1.0
  are two facets, and objects that differ in the order of their entries come on different sides of a third
  (`Replacement.NumberTypeIsSeen`, `Replacement.EntryOrderIsSeen`). Replacing an item there leaves the bytes as they are if
  and only if both or neither of the two dumps are in the list already and, if neither is, the two items and every item whose
  dump lies between theirs have equal bytes (`Replacement.SetItemMayBeReplaced`). Outside such lists a replacement is seen
  exactly if the bytes of what is replaced differ (`Replacement.EqualsMayBeReplaced`).
- Two paths of a diff are printed alike if and only if they have the same segments once keys are split at their dots and
  leading empty ones dropped (`DiffPaths.PrintedAlike`); two edits of one report can be printed under one path
  (`DiffPaths.ReportCollides`), but not if no reported key is empty or holds a dot (`DiffPaths.ReportIsReadable`).
- A curve or a list of points that fails with LIVE_UNAVAILABLE may have changed the envelope: it is erased if and only if
  Live can clear it and then cannot give or fill it, and it holds the new points if and only if only the last look at the
  clip failed (`Curve.Envelope.CreateAutomation`, `Curve.Envelope.CreateCurve`).
- An automation ramp whose steps are closer than 1e-6 beats collapses into its end point (`Curve.CoarseRampCollapses`);
  an expansion loses no point if and only if no ramp is that dense (`Curve.FineExpansionFollows`).
- Fades inside a batch get no slack for their durations: together they last longer than the deadline of the batch if and
  only if they exceed two seconds per work unit by more than 18 (`Fade.BatchedFadesOutliveDeadline`). One fade alone does
  if and only if it exceeds 20 seconds and two for each of at most 59 steps (`Fade.BatchedFadeOutlivesDeadline`); a minute
  in one step is given 22 seconds (`Fade.MinuteFadeOutlivesBatch`).
- A rewritten baseline passes the ratchet against the one it came from if and only if that one records limits no lower than
  the current ones; and a passing ratchet carries cleanliness over to the reference if and only if the reference stores
  nothing below a limit that the tree leaves out (`Ratchet.UpdatePassesRatchet`, `Ratchet.RatchetCarriesCleanliness`;
  inputs: `Ratchet.FirstBaselineFailsRatchet`, `Ratchet.PassingHidesAStricterReference`).

## Assumptions

- Live as a host for cue operations: a playhead write lands or is lost at the next tick, and an *attentive* host lands one
  of any ten in a row; a toggle takes effect at the place
  the playhead snaps to, at once or within 10 ticks, and flips exactly one locator; two locators are never closer than
  twice the tolerance, so a toggle that would bring them closer is ignored. A host that is not *settling* may ignore
  toggles and renames. The snap is any function; a *sharp* one snaps to the nearest of lines at least four tolerances
  apart (`Cues.NearestLineIsSharp`). The transport does not play.
- A command handler is a generator: its next move, a write, a wait for the next tick or a return, is a function of its
  local variables and of the Live set, and the request bounds the number of its moves. A command table is consistent: names
  are normalized, the tables are disjoint, and only mutations that are not dry runs write. Between two ticks Live may change
  the set in any way.
- Every dial, transmission and read of the client may fail or time out, as an arbitrary network decides; what it did is
  recorded, and the contracts say what the client makes of it. Anything may break a catalog scan off at any visit.
- The server answers each frame once and in order, as the client assumes. Sending may fail although the server received the
  frame. One thread uses the client. A timeout on the server's side may still execute the command.
- Size and modification time determine what a file derives to, deriving is deterministic, and a walk may end anywhere.
  Scans do not overlap. A path that one walk lists twice, as a file and through a link, is found in one state.
- An undo call of Live that raises has no effect.
- Normalization form C and the number that a float's spelling stands for are given functions, and UTF-8 is an injective one.
  Python spells no float like an int, and `json.loads` undoes `json.dumps`. Real numbers stand for floating point.
- Building a bundle is a given function of the selection. Texts in curation are represented by their rank in text order.

## Model

| member | source | states |
|---|---|---|
| LiveHost.Song.FindCue | AbletonMCPServer_RemoteScript/cues.py:28-32 | a cue found is within tolerance of the target, and none found means none is |
| Cues.VerifiedCuePosition | AbletonMCPServer_RemoteScript/cues.py:212-230 | the target is written once a tick until one write lands, and it fails exactly after ten such writes were all lost, so never on a host that lands one of any ten; it flips no locator |
| Cues.VerifiedCueName | AbletonMCPServer_RemoteScript/cues.py:186-209 | success means that this one name was written and nothing else changed; failure, that the name was written ten times in vain; on a settling host it never fails |
| Cues.WaitForCueState | AbletonMCPServer_RemoteScript/cues.py:51-75 | it waits at most 10 ticks without toggling and reports exactly whether the wanted state is seen |
| Cues.MoveAndToggle | AbletonMCPServer_RemoteScript/cues.py:240-242 | one toggle is asked for if and only if the cursor got to the target, and nothing else but the playhead writes it took |
| Cues.DeltaOfOneToggle | AbletonMCPServer_RemoteScript/cues.py:39-48 | the snapshot difference after one toggle names exactly the one locator that was flipped |
| Cues.CreationObserved | AbletonMCPServer_RemoteScript/cues.py:120-129 | what is near the target after a toggle is exactly the new locator; nothing near it means the flipped one is elsewhere |
| Cues.DeletionObserved | AbletonMCPServer_RemoteScript/cues.py:154-172 | the target is gone exactly when it alone was removed; otherwise the flipped locator is elsewhere |
| Cues.ToggleBack | AbletonMCPServer_RemoteScript/cues.py:87-99 | one more toggle at the flipped locator; when the wanted state is seen the locators are as before, but for the time and name of a recreated one |
| Cues.ReverseSnappedCueToggle | AbletonMCPServer_RemoteScript/cues.py:78-106 | what every exit of the reversal leaves: reverted, reverted elsewhere, or abandoned after a known number of flips |
| Cues.RestoreDeletedCue | AbletonMCPServer_RemoteScript/cues.py:94-101 | a locator taken away by mistake comes back under its own name |
| Cues.SharpReversal | AbletonMCPServer_RemoteScript/cues.py:78-101 | on a sharp grid the reversal restores the locator map if and only if the flipped locator is on the grid |
| Cues.OffGridLocatorMoves | AbletonMCPServer_RemoteScript/cues.py:94-101 | a locator off the grid comes back at another time |
| Cues.ReversalIsFailure | AbletonMCPServer_RemoteScript/cues.py:78-106 | every outcome of a reversal is one of the failures an operation may report, with the locators that failure allows |
| Cues.FailBySnap | AbletonMCPServer_RemoteScript/cues.py:129-135 | a toggle that went elsewhere is reversed, with the effect of one of the failures |
| Cues.CreateNewCue | AbletonMCPServer_RemoteScript/cues.py:240-253 | where no locator is near: every outcome with the locators it leaves; on a settling, orderly grid it is created, or snapped to the one place the grid allows, and the grid stays orderly |
| Cues.WaitForCreatedCue | AbletonMCPServer_RemoteScript/cues.py:109-140 | a success adds exactly the one locator and never toggles again; a failure has the effect its kind allows |
| Cues.WaitForDeletedCue | AbletonMCPServer_RemoteScript/cues.py:143-183 | a success removes exactly the one locator and never toggles again; a failure has the effect its kind allows |
| Cues.CreateCueAtCursor | AbletonMCPServer_RemoteScript/cues.py:233-253 | renamed, created or failed: the whole new locator map and the number of toggles, in each case; every request made of the host, in order, and giving up only after that many lost writes |
| Cues.RestoreCursor | AbletonMCPServer_RemoteScript/cues.py:267-272 | the outcome and the quantization survive if and only if the cursor is back within tolerance |
| Cues.CreateCuePoint | AbletonMCPServer_RemoteScript/cues.py:256-272 | over every run: the locator map, toggles, playhead and quantization that each outcome leaves; PLAYHEAD_NOT_MOVED only after ten lost writes of that place; on a settling, attentive host with an orderly grid the outcome is the one the grid determines, created or renamed or snapped |
| Cues.DeleteCuePoint | AbletonMCPServer_RemoteScript/cues.py:275-300 | the same for deletion: on such a host and grid, deleted or no cue there |
| Cues.DeleteCueAtCursor | AbletonMCPServer_RemoteScript/cues.py:286-294 | deleted means exactly this locator is gone after exactly one toggle |
| Cues.BulkItem | AbletonMCPServer_RemoteScript/cues.py:314-325 | one item changes the map as its result says exactly when its result is contained; a stuck cursor leaves the map as it was exactly when the item's own place is named; on an attentive host no item gets stuck, and on an orderly grid its result is the one the grid determines |
| Cues.BulkCreateCuePoints | AbletonMCPServer_RemoteScript/cues.py:303-332 | one result per item in order; if every result is contained the final map is the initial one with the successful items applied in order, which on an orderly grid is so exactly when no item got stuck in a reversal; on an attentive host every result is the expected one |
| Cues.StuckReversalLeavesLocator | AbletonMCPServer_RemoteScript/cues.py:87-106 | an effect of a stuck reversal: the item reports another place, and the added locator is still there |
| Preconditions.Validate | AbletonMCPServer_RemoteScript/preconditions.py:55-95 | accepted if and only if at most 16 slots are named, each well formed and none twice |
| Preconditions.Evaluate | AbletonMCPServer_RemoteScript/preconditions.py:98-132 | no failure if and only if every slot exists and is empty; otherwise the failure of the first bad one |
| Preconditions.AdmitBatch | AbletonMCPServer_RemoteScript/preconditions.py:135-141 | the verdict on a whole request, error cases included |
| Preconditions.AdmissionIsVerdict | AbletonMCPServer_RemoteScript/preconditions.py:135-141 | there is exactly one verdict, the one the requests' specification uses |
| Preconditions.FirstFailureIsFirst | AbletonMCPServer_RemoteScript/preconditions.py:98-132 | the reported failure is that of the first slot that is missing or occupied |
| Dispatch.BatchIsFold | AbletonMCPServer_RemoteScript/dispatch.py:73-121 | a batch is the left fold of its commands, up to and including the first that fails; counts and indexes agree with that |
| Dispatch.BatchIsFoldOfRequests | AbletonMCPServer_RemoteScript/dispatch.py:56-121 | every item reported ok is an object with object parameters whose type is an allowed mutation and no batch, and did what it does as a request; the first that is not ends the batch, the set as its predecessors left it, with the code its defect determines |
| Dispatch.ItemsAreRequests | AbletonMCPServer_RemoteScript/dispatch.py:56-121 | the same of the item at any index: it runs as a request of its own where it may, and else fails with the code of its defect and changes nothing |
| Dispatch.BatchFrom | AbletonMCPServer_RemoteScript/dispatch.py:92-121 | the same from any point of the batch on |
| Dispatch.ItemIsSingleRequest | AbletonMCPServer_RemoteScript/dispatch.py:278-327 | a command inside a batch does what it does as a request of its own |
| Dispatch.RequestsAreGuarded | AbletonMCPServer_RemoteScript/dispatch.py:278-327 | what each request that fails a guard answers, the set unchanged: unknown, not allowed, not supported, not admitted, a dry run that is no boolean |
| Dispatch.FirstCommandSeesAdmittedSlots | AbletonMCPServer_RemoteScript/dispatch.py:301-327 | the first command of an admitted batch runs on the very set in which every named slot was found empty |
| Processor.RequestProcessor.Enqueue | AbletonMCPServer_RemoteScript/socket_server.py:60-61 | the request is last in the queue, with a response slot of its own |
| Processor.RequestProcessor.BeginUndo | AbletonMCPServer_RemoteScript/dispatch.py:36-43 | a step is opened for this request, only if none is open where steps can be ended, and not at all when Live has no call or it raises |
| Processor.RequestProcessor.EndUndo | AbletonMCPServer_RemoteScript/dispatch.py:46-53 | the step is closed by the request that opened it, and the reply is what closing makes of it |
| Processor.RequestProcessor.Advance | AbletonMCPServer_RemoteScript/dispatch.py:246-275 | one run of a generator to its next yield refines the specification of the whole command, and writes only inside an undo step |
| Processor.RequestProcessor.AdvanceItem | AbletonMCPServer_RemoteScript/dispatch.py:95-115 | a batch item yields, ends the batch or makes way for the next, as the specification of the batch says |
| Processor.RequestProcessor.AdvanceBatch | AbletonMCPServer_RemoteScript/dispatch.py:95-121 | a batch run to the next yield, across items, refines its specification |
| Processor.RequestProcessor.Start | AbletonMCPServer_RemoteScript/dispatch.py:278-327 | admission, dry-run test and undo ownership before the first yield; a step is opened exactly by a request that passes them as a writing mutation |
| Processor.RequestProcessor.StartSingle | AbletonMCPServer_RemoteScript/dispatch.py:308-327 | a single command, with or without an undo step of its own, up to its first yield |
| Processor.RequestProcessor.StartBatch | AbletonMCPServer_RemoteScript/dispatch.py:303-327 | a batch up to its first yield, inside one undo step unless it only tries things out |
| Processor.RequestProcessor.Next | AbletonMCPServer_RemoteScript/socket_server.py:83-92 | resuming a suspended request is one tick of its specified run |
| Processor.RequestProcessor.Dequeue | AbletonMCPServer_RemoteScript/socket_server.py:66-81 | requests start in the order they were accepted |
| Processor.RequestProcessor.Respond | AbletonMCPServer_RemoteScript/socket_server.py:93-95 | an error response if and only if the run failed, with its code, or crashed, with LIVE_UNAVAILABLE; otherwise a success with that very reply, refusals included; its slot is empty, so putting it never blocks |
| Processor.RequestProcessor.ServeActive | AbletonMCPServer_RemoteScript/socket_server.py:82-95 | the active request yields once or is answered |
| Processor.RequestProcessor.ProcessPending | AbletonMCPServer_RemoteScript/socket_server.py:63-96 | one tick keeps the invariant (one active request, exactly one right response for each finished one in order, undo steps bracketed around every write), answers at most 16 and ends at the first yield |
| Processor.RequestProcessor.Tick | AbletonMCPServer_RemoteScript/__init__.py:60-62 | the same with Live's own pass before it |
| Processor.RequestProcessor.ServeAll | AbletonMCPServer_RemoteScript/socket_server.py:63-96 | every accepted request is answered, an error exactly for a run that failed or crashed, within the number of yields plus one tick per 16 requests plus one; the undo depth is then zero where steps can be ended, else the number of requests that opened one, and zero exactly when none did |
| Processor.LeakOneStep | AbletonMCPServer_RemoteScript/dispatch.py:46-53 | a host without `end_undo_step` on which one request leaves one step open for good |
| Framing.LinesRebuild | AbletonMCPServer_RemoteScript/socket_server.py:149-152 | lines and unfinished tail together are the stream, and no line holds a newline |
| Framing.LinesOfConcat | AbletonMCPServer_RemoteScript/socket_server.py:147-172 | the lines of a stream do not depend on how it is cut into chunks |
| Framing.AnswersOfConcat | AbletonMCPServer_RemoteScript/socket_server.py:149-156 | answering frames in parts is answering them in one go, up to the first that raises, whatever the responses depend on |
| Framing.FirstErrorStays | AbletonMCPServer_RemoteScript/socket_server.py:173-181 | an error in an early chunk is the error of the whole stream |
| Framing.TailIsShort | AbletonMCPServer_RemoteScript/socket_server.py:169-171 | lines that leave room for one chunk never make the buffer exceed the limit |
| Framing.Connection.DrainFrames | AbletonMCPServer_RemoteScript/socket_server.py:147-156 | every complete frame is answered once in order, blank ones skipped, and the tail stays |
| Framing.Connection.ServeClient | AbletonMCPServer_RemoteScript/socket_server.py:158-181 | what was sent answers exactly the lines of what was received, up to the first error; the limit trips exactly on a long unfinished line |
| BridgeClient.OnlyLine | ableton_mcp_server/client.py:164-177 | a reply read from a clean connection is the whole answer and leaves nothing behind |
| BridgeClient.Client.CloseLocked | ableton_mcp_server/client.py:153-162 | closing clears socket and buffer, and a connected client moves to a new epoch |
| BridgeClient.Client.ConnectSocket | ableton_mcp_server/client.py:136-147 | a connection is a fresh socket under an epoch never used before |
| BridgeClient.Client.ReadLine | ableton_mcp_server/client.py:164-177 | successive reads return successive lines of the stream, however it arrives |
| BridgeClient.Client.Exchange | ableton_mcp_server/client.py:200-201 | one transmission, and the line read is the server's answer to the frame it put on this connection |
| BridgeClient.Client.Attempt | ableton_mcp_server/client.py:195-233 | at most one transmission, over the open connection or a new one; an answer is the one new response read, to that transmission; how it ends is how the network ended it, and a broken or timed-out one leaves the connection closed |
| BridgeClient.Client.Call | ableton_mcp_server/client.py:179-233 | the first attempt that is answered is the answer and the first that times out ends the call; it is unavailable if and only if every attempt the command has broke: one for a mutation or without reconnecting, else one more than the retries; it never attempts more, and a mutation is sent at most once |
| BridgeClient.Client.CallAtEpoch | ableton_mcp_server/client.py:235-274 | sent on the expected connection or not at all, never twice, and never on a new one; an answer is the one new response read, to this frame; ambiguous exactly when the network failed after sending began, and then closed |
| BridgeClient.Client.GetCapabilitySnapshot | ableton_mcp_server/client.py:283-292 | a capability is returned if and only if the open connection has one cached that is at most five seconds old by the clock read just now |
| BridgeClient.Client.CacheCapabilitySnapshot | ableton_mcp_server/client.py:276-281 | stored exactly when it is of the current epoch |
| BridgeClient.Client.AskContract | ableton_mcp_server/client.py:306-326 | a contract obtained is that of the last response read, on the connection now open; none is obtained only if the session information was asked for in vain or its answer gives none; nothing else is asked for |
| BridgeClient.Client.GetCapabilityStatus | ableton_mcp_server/client.py:302-328 | a contract returned is cached for the open connection, stamped with the first look at the clock after the response that attests it, before any other response; none only after asking in vain |
| BridgeClient.Client.RequireFreshPreconditions | ableton_mcp_server/groove_intelligence/apply.py:105-118 | success means a v1 contract cached for this connection, stamped with the first look at the clock after the response that attests it, the stamp at most five seconds old at the last look at the clock; failure, that the bridge was asked in vain or its contract is not v1 or too old; no batch is sent |
| Apply.ApplyArtifact | ableton_mcp_server/groove_intelligence/apply.py:239-333 | at most one batch is sent, only on the connection whose cached contract was fresh when last looked at with nothing sent since; which request is rejected, which previewed, without sending; unknown leaves the connection closed; any other receipt says of the answer to this very transmission: an error is rejected, at the stage its code tells, a report partial exactly when its second command failed, rejected exactly when refused or no object, else committed |
| Apply.SendBatch | ableton_mcp_server/groove_intelligence/apply.py:315-333 | the batch is the one transmission, on the attested connection, unless it cannot be encoded; the receipt is what the answer says, in the same words |
| Apply.ReceiptOfAnswer | ableton_mcp_server/groove_intelligence/apply.py:167-236 | when the answer conveys what the bridge served, the receipt of an application is the receipt of that, so the results below are about it |
| Apply.ReceiptOfBatch | ableton_mcp_server/groove_intelligence/apply.py:167-236 | of a batch answered in time: rejected exactly when it was not executed or its undo step cannot be closed, at stage precondition when it was refused, otherwise partial exactly when the second command failed, committed exactly when both ran or the first failed |
| Apply.RejectedButExecuted | ableton_mcp_server/groove_intelligence/apply.py:169-186 | an executed batch is reported as rejected if and only if the answer came too late or the undo step cannot be closed |
| Apply.WrittenButRejected | AbletonMCPServer_RemoteScript/socket_server.py:200-206 | clip and notes are written and the receipt says rejected, on a host that cannot end undo steps and on one that answers too late |
| Apply.CommittedWithoutClip | ableton_mcp_server/groove_intelligence/apply.py:200-236 | nothing is written and the receipt says committed, on a host that cannot create the clip |
| Apply.CommittedButNotWritten | ableton_mcp_server/groove_intelligence/apply.py:200-236 | a receipt says committed of an incomplete batch if and only if the creation of the clip failed |
| Catalog.CorpusCatalog.Open | ableton_mcp_server/groove_intelligence/corpus.py:173-209 | a catalog of another root is refused and left as it is; otherwise nothing changes but a missing root |
| Catalog.CorpusCatalog.RefreshDerivationState | ableton_mcp_server/groove_intelligence/corpus.py:247-253 | stale exactly when the contract differs or the last scan was not completed |
| Catalog.CorpusCatalog.PrepareScan | ableton_mcp_server/groove_intelligence/corpus.py:255-277 | the scan is durably marked incomplete before any row changes, and reuse is allowed exactly when the table was complete under this contract |
| Catalog.CorpusCatalog.Commit | ableton_mcp_server/groove_intelligence/corpus.py:444-445 | what was written becomes durable |
| Catalog.CorpusCatalog.Rollback | ableton_mcp_server/groove_intelligence/corpus.py:259-262 | the writes of an abandoned transaction are gone |
| Catalog.CorpusCatalog.Visit | ableton_mcp_server/groove_intelligence/corpus.py:385-443 | a row is kept exactly when allowed and unchanged by size and time, else derived anew |
| Catalog.CorpusCatalog.VisitAll | ableton_mcp_server/groove_intelligence/corpus.py:385-445 | wherever the walk breaks off, the rows are those of the visits so far and the table stays marked incomplete; it breaks off if and only if something broke it; durable are the rows of the last commit, and the rows derived anew are counted |
| Catalog.CorpusCatalog.VisitNext | ableton_mcp_server/groove_intelligence/corpus.py:385-445 | one more visit keeps what the walk has so far: the working rows, the durable ones as of the last commit, one at every 256th row derived, and the count of these |
| Catalog.CorpusCatalog.Finish | ableton_mcp_server/groove_intelligence/corpus.py:446-471 | rows of paths not found are dropped and the table is marked complete in one step |
| Catalog.CorpusCatalog.Scan | ableton_mcp_server/groove_intelligence/corpus.py:369-488 | interrupted if and only if something broke it, it leaves the table as it was or marked incomplete; undisturbed it completes, tells how many rows were derived, kept, valid and failed, and the durable table is the specified one for exactly the paths found, that of a derivation from scratch if and only if no path is confused |
| Catalog.CorpusCatalog.Rows | ableton_mcp_server/groove_intelligence/corpus.py:490-495 | rows are returned exactly when the last scan completed under this contract, and then are faithful to what it found, through any history of opens, scans, crashes and contract changes; they are those of a derivation from scratch if and only if that scan confused no path |
| Catalog.ScanIsFaithful | ableton_mcp_server/groove_intelligence/corpus.py:385-458 | whatever rows a scan starts from, as long as those it may reuse were derived under this contract, it leaves the right row for every path found and no other |
| Catalog.RowOfPath | ableton_mcp_server/groove_intelligence/corpus.py:385-443 | a scan leaves a path its old row if that may be kept and else a new one |
| Catalog.FromScratchUnlessConfused | ableton_mcp_server/groove_intelligence/corpus.py:237-245 | a scan gives the table of a derivation from scratch if and only if no empty file with time zero is found where a different error row of an unreachable path is kept |
| Catalog.UnreachableRowIsKept | ableton_mcp_server/groove_intelligence/corpus.py:385-402 | the confusion happens: the error row of a path that led out of the root or nowhere is kept for an empty file with time zero |
| Curation.Deduplicate | ableton_mcp_server/groove_intelligence/corpus.py:546-550 | of each digest the row with the smallest path is kept |
| Curation.Arrange | ableton_mcp_server/groove_intelligence/corpus.py:551-558 | strata in ascending order, each holding exactly its rows, by fingerprint, digest and path |
| Curation.SortStratum | ableton_mcp_server/groove_intelligence/corpus.py:554-555 | the rows of a stratum, each once, in strict order |
| Curation.ArrangementIsUnique | ableton_mcp_server/groove_intelligence/corpus.py:551-558 | there is only one such arrangement |
| Curation.ServeStratum | ableton_mcp_server/groove_intelligence/corpus.py:562-576 | one turn takes the first row from the cursor on that still fits |
| Curation.RoundRobin | ableton_mcp_server/groove_intelligence/corpus.py:556-580 | the loops compute the specified rounds |
| Curation.RoundsCurate | ableton_mcp_server/groove_intelligence/corpus.py:560-580 | the rounds respect both caps, select no row twice, leave out only what no longer fits unless the file cap is reached, and no stratum with rows left to consider, or with a rejected row that fits, trails another by more than one |
| Curation.IdlePassIsExhaustive | ableton_mcp_server/groove_intelligence/corpus.py:579-580 | a pass without progress has run through every list |
| Curation.CurateRepresentatives | ableton_mcp_server/groove_intelligence/corpus.py:536-581 | the selection is the curation of the catalog's rows, for all caps |
| Curation.NoDigestTwice | ableton_mcp_server/groove_intelligence/corpus.py:546-550 | no digest is selected twice |
| Curation.CurationIsUnique | ableton_mcp_server/groove_intelligence/corpus.py:551-558 | the selection does not depend on the order of the rows |
| Curation.BuildCuratedBundle | ableton_mcp_server/groove_intelligence/corpus.py:588-680 | the builder ends; what it returns is the first selection of the shrinking caps that fits; it gives up only after the smallest cap, and finds nothing to select only after all larger ones |
| JsonText.EscapeStandsForItsCharacter | ableton_mcp_server/groove_intelligence/canonical.py:88-89 | only quotes, backslashes and control characters are escaped, by their letter in section 7 of RFC 8259 or else by their number, and the escape stands for its character |
| CanonicalText.NumberIsReadable | ableton_mcp_server/groove_intelligence/canonical.py:17-34 | a printed number in front of a delimiter determines the number |
| JsonText.QuoteIsReadable | ableton_mcp_server/groove_intelligence/canonical.py:88-89 | a quoted string, escaped as in section 7 of RFC 8259, determines the string and where it ends |
| JsonText.PrintIsReadable | ableton_mcp_server/groove_intelligence/canonical.py:62-99 | a JSON text in front of a delimiter determines its value, spelling of numbers and order of entries included, and what follows |
| CanonicalText.EncodeIsReadable | ableton_mcp_server/groove_intelligence/canonical.py:81-99 | a canonical text in front of a delimiter determines the normal form and what follows |
| CanonicalText.EncodeIsInjective | ableton_mcp_server/groove_intelligence/canonical.py:81-99 | equal texts if and only if equal normal forms |
| Canonical.RoundHalfEven | ableton_mcp_server/groove_intelligence/canonical.py:30-30 | the nearest billionth, halves to even |
| Canonical.CanonicalJsonIsInjective | ableton_mcp_server/groove_intelligence/canonical.py:102-105 | equal canonical JSON if and only if equal normal forms, errors included |
| Canonical.KeyOrderIsIrrelevant | ableton_mcp_server/groove_intelligence/canonical.py:49-57 | the order of an object's members does not matter |
| Canonical.DumpIsInjective | ableton_mcp_server/groove_intelligence/canonical.py:62-67 | `json.dumps` tells int from float and one order of entries from another, so loading its texts gives back the items |
| Canonical.SetItemsHold | ableton_mcp_server/groove_intelligence/canonical.py:58-67 | under a set key each item is kept once, in the order of the dumps |
| Canonical.SetItemsAreTheSet | ableton_mcp_server/groove_intelligence/canonical.py:58-67 | two lists under a set key become the same if and only if they hold the same items |
| Canonical.SetsIgnoreOrderAndMultiplicity | ableton_mcp_server/groove_intelligence/canonical.py:58-67 | order and repetition of the items under the set keys, of whatever kind, do not matter to the normalized object, and so to nothing it stands in |
| Canonical.ConstraintsIgnoreOrder | ableton_mcp_server/groove_intelligence/canonical.py:68-74 | the bytes tell exactly how often each feature constraint occurs, and not in which order |
| Replacement.PreparedMayBeReplaced | ableton_mcp_server/groove_intelligence/canonical.py:37-77 | values that normalize to the same may stand for each other anywhere |
| Replacement.EqualsMayBeReplaced | ableton_mcp_server/groove_intelligence/canonical.py:49-77 | at any depth outside the lists under set keys, a replacement leaves the bytes if and only if what is replaced has equal bytes, or the place does not matter |
| Replacement.SetItemMayBeReplaced | ableton_mcp_server/groove_intelligence/canonical.py:58-67 | replacing an item under a set key leaves the bytes of the whole value if and only if the dumps do not tell the two items apart beside the others, or the place does not matter |
| Replacement.EqualTextsMayBeReplaced | ableton_mcp_server/groove_intelligence/canonical.py:38-39 | strings with equal bytes may stand for each other anywhere |
| Replacement.NumberTypeIsSeen | ableton_mcp_server/groove_intelligence/canonical.py:58-67 | 1 and 1.0 have equal bytes and are different facets |
| Replacement.EntryOrderIsSeen | ableton_mcp_server/groove_intelligence/canonical.py:58-67 | objects that differ in the order of their entries have equal bytes and are ordered differently as facets |
| Replacement.ReorderingIsIrrelevant | ableton_mcp_server/groove_intelligence/canonical.py:49-77 | sets may be reordered anywhere, members and constraints anywhere outside the lists under set keys, and however many at once |
| Browser.Search.Descend | AbletonMCPServer_RemoteScript/reads.py:335-345 | the first 500 children, in reverse |
| Browser.PushedInReverse | AbletonMCPServer_RemoteScript/reads.py:341-345 | children pushed in reverse are visited in order |
| Browser.Search.Visit | AbletonMCPServer_RemoteScript/reads.py:348-368 | a key seen before adds nothing; otherwise the item is logged, matched and, above the depth, expanded |
| Browser.Search.TraverseCategory | AbletonMCPServer_RemoteScript/reads.py:371-390 | the stack loop ends and computes the recursive preorder, cut off at the result limit or the budget |
| Browser.Search.Run | AbletonMCPServer_RemoteScript/reads.py:400-415 | the results are the matches of the preorder of all selected categories, cut off where one of the bounds is reached |
| Browser.Unstack | AbletonMCPServer_RemoteScript/reads.py:386-390 | one turn of the loop leaves what remains to be found as it was |
| Browser.SearchIsBoundedPreorder | AbletonMCPServer_RemoteScript/reads.py:371-415 | bounded results and visits, each key once, every item where its ordinals lead within the depth, depth-first order, and nothing missing unless a bound was reached |
| Browser.CutIsMinimal | AbletonMCPServer_RemoteScript/reads.py:387-387 | the cut never goes past a bound, and falls short of the whole only where one is reached |
| Browser.SearchIsCompleteIff | AbletonMCPServer_RemoteScript/reads.py:357-390 | a search that reached no bound is complete if and only if skipped repetitions have children visited elsewhere, or, where equal keys stand above equal keys, those first visited at the depth limit |
| Browser.SearchIsComplete | AbletonMCPServer_RemoteScript/reads.py:371-415 | when no bound was reached, equal keys stand above equal keys and a key with children at one depth, every item within the depth was visited |
| Browser.RepeatedItemHidesAMatch | AbletonMCPServer_RemoteScript/reads.py:357-367 | a repeated address can hide a match within the depth |
| Diff.SnapshotDiff.Walk | ableton_mcp_server/diff.py:13-41 | the walk appends exactly the diff of the two values, under the path it was given |
| Diff.SortKeys | ableton_mcp_server/diff.py:20-26 | the keys in text order, the one order there is |
| Diff.SnapshotDiff.WalkEntries | ableton_mcp_server/diff.py:17-29 | of two objects: added keys, removed keys and the diffs of the common ones, in order |
| Diff.SnapshotDiff.WalkItems | ableton_mcp_server/diff.py:30-39 | of two lists: the diffs of the common indexes and the surplus of the longer one |
| Diff.DiffSnapshots | ableton_mcp_server/diff.py:6-44 | the report is the diff of the two snapshots |
| Diff.EmptyIffEqual | ableton_mcp_server/diff.py:13-41 | nothing is reported if and only if the values are equal, types included |
| Diff.DiffIsAPatch | ableton_mcp_server/diff.py:13-44 | the report, applied as a patch to the first value, succeeds and yields the second |
| Diff.DiffIsPrefixFree | ableton_mcp_server/diff.py:20-38 | no reported path is a prefix of another |
| DiffPaths.PrintedAlike | ableton_mcp_server/diff.py:21-21 | two paths are printed alike if and only if the same pieces can be read from them |
| DiffPaths.PlainPathsAreReadable | ableton_mcp_server/diff.py:21-21 | paths without empty or dotted segments are printed alike only if they are equal |
| DiffPaths.ReportIsReadable | ableton_mcp_server/diff.py:13-41 | if no reported key is empty or holds a dot, no two edits of a report are printed under one path, indexes and keys included |
| DiffPaths.ReportCollides | ableton_mcp_server/diff.py:20-26 | a report in which two edits are printed under one path |
| DiffPaths.PrintedPathsCollide | ableton_mcp_server/diff.py:21-21 | with a dotted or an empty key two paths are printed alike |
| Curve.ExpandCurve | AbletonMCPServer_RemoteScript/automation.py:131-169 | the loops compute the thinned staircase of the control points |
| Curve.ExpandPair | AbletonMCPServer_RemoteScript/automation.py:145-161 | what one pair of control points contributes |
| Curve.PairSteps | AbletonMCPServer_RemoteScript/automation.py:145-151 | a ramp takes the fewest equal steps no longer than the resolution; a held point takes one |
| Curve.RampPoints | AbletonMCPServer_RemoteScript/automation.py:151-161 | the times are equal parts, the values those of a line, a parabola from the start (exp) or a parabola into the end (log) |
| Curve.Thin | AbletonMCPServer_RemoteScript/automation.py:163-169 | the loop computes the thinned list |
| Curve.ExpansionIsSound | AbletonMCPServer_RemoteScript/automation.py:131-169 | for sorted control points and every shape: the exact last point, gaps of at least 1e-6, times in order and in range, values within the hull |
| Curve.StaircaseInHull | AbletonMCPServer_RemoteScript/automation.py:152-162 | no value leaves the range of the control values and no time their extent |
| Curve.StaircaseFollows | AbletonMCPServer_RemoteScript/automation.py:143-162 | before thinning, every point stays close to the ideal curve until the next one |
| Curve.ThinnedIsSpaced | AbletonMCPServer_RemoteScript/automation.py:163-169 | thinning keeps the gap and drops nothing exactly when all gaps were there |
| Curve.FineExpansionFollows | AbletonMCPServer_RemoteScript/automation.py:143-169 | no point is lost if and only if every ramp is fine; then each step stays within one step's share of the ideal curve, twice that for exp and log |
| Curve.CoarseRampCollapses | AbletonMCPServer_RemoteScript/automation.py:163-169 | a ramp finer than 1e-6 is reduced to its end point |
| Curve.StepsTile | AbletonMCPServer_RemoteScript/automation.py:420-427 | the written steps follow each other with no gap and no overlap, the last one without length |
| Curve.Envelope.InsertSteps | AbletonMCPServer_RemoteScript/automation.py:412-427 | one step per point, each reaching the next, or none where Live cannot insert |
| Curve.Envelope.ClearAndGet | AbletonMCPServer_RemoteScript/automation.py:386-409 | which calls Live needs to give an envelope, and that it is erased before that is known |
| Curve.Envelope.CreateAutomation | AbletonMCPServer_RemoteScript/automation.py:355-460 | the outcome and the envelope of every request: the error of the first bad point and nothing changed, all points in order of time, or LIVE_UNAVAILABLE with the envelope untouched, erased or written, each exactly when Live lacks what it takes |
| Curve.Envelope.CreateCurve | AbletonMCPServer_RemoteScript/automation.py:172-219 | the outcome and the envelope of every request, each error included; control values in range are never rejected for their range, and only LIVE_UNAVAILABLE can leave the envelope changed |
| Fade.Live.FadeWriteValues | AbletonMCPServer_RemoteScript/lifecycle.py:199-234 | exactly `steps` writes of the given values; write k no earlier than its share of the duration, and late by at most k ticks; without a duration one write and one tick |
| Fade.Live.WaitUntil | AbletonMCPServer_RemoteScript/lifecycle.py:229-231 | the wait ends, not before its deadline and less than one tick after it |
| Fade.FadeIsMonotone | AbletonMCPServer_RemoteScript/lifecycle.py:232-234 | the values run one way from the start and end exactly at the target, under both shapes |
| Fade.FadeShapes | AbletonMCPServer_RemoteScript/lifecycle.py:220-234 | linear values rise by equal parts, smoothstep ones along the cubic that starts and ends flat; the second half mirrors the first |
| Fade.FadeInTime | contracts.py:92-112 | a fade whose time in the queue and overshoot add up to at most 20 seconds ends within the shared deadline, at the target |
| Fade.DeadlineCovers | contracts.py:103-112 | the deadline of an accepted fade covers its duration and 20 seconds of waiting and overshoot |
| Fade.DeadlineOf | contracts.py:45-112 | the deadline of every command that has its own, with its defaults and caps |
| Fade.BatchDeadlineAdds | contracts.py:73-88 | joined batches get both deadlines, less the 18 seconds a request gets for itself |
| Fade.BatchedFadesOutliveDeadline | contracts.py:73-88 | the fades of any batch last longer than its deadline if and only if they exceed two seconds per work unit by more than 18 |
| Fade.BatchedFadeOutlivesDeadline | contracts.py:70-88 | one fade alone in a batch, with its default values too: if and only if its duration exceeds 20 seconds plus two per counted step |
| Fade.MinuteFadeOutlivesBatch | contracts.py:70-88 | a minute in one step is given 22 seconds in a batch and 80 alone |
| Fade.FadesInBatch | AbletonMCPServer_RemoteScript/lifecycle.py:199-234 | fades one after the other take at least the sum of their durations |
| Ratchet.Violations | scripts/quality_gate.py:272-288 | exactly the metrics above what is allowed; none if and only if the measurement is clean |
| Ratchet.Update | scripts/quality_gate.py:384-399 | the baseline is rewritten if and only if the measurement is clean |
| Ratchet.RatchetLines | scripts/quality_gate.py:427-448 | exactly the complaints about limits, entries and metrics; none if and only if the ratchet passes |
| Ratchet.SectionLines | scripts/quality_gate.py:435-447 | exactly the complaints about the entries of one section |
| Ratchet.PayloadStores | scripts/quality_gate.py:244-253 | a baseline stores exactly what is above its limit |
| Ratchet.UpdatePassesRatchet | scripts/quality_gate.py:384-448 | an update is clean under its own baseline, and passes the ratchet exactly when the old limits are no lower |
| Ratchet.FirstBaselineFailsRatchet | scripts/quality_gate.py:402-448 | a first baseline never passes the ratchet against a reference without one |
| Ratchet.RatchetCarriesCleanliness | scripts/quality_gate.py:427-448 | a passing ratchet carries cleanliness to the reference, for every measurement, if and only if the reference stores nothing below a limit that the tree leaves out |
| Ratchet.PassingHidesAStricterReference | scripts/quality_gate.py:435-447 | a passing tree under which a measurement is clean that the reference rejects |
| Ratchet.ChainNeverGrows | scripts/quality_gate.py:384-399 | over any chain of updates no metric exceeds both its limit and its original baseline |
| Realtime.RealtimeServer.HandlePacket | AbletonMCPServer_RemoteScript/realtime_server.py:87-124 | a packet is admitted exactly with the armed token and a higher number; accepted numbers increase, and only armed references are moved |
| Realtime.RealtimeServer.Enqueue | AbletonMCPServer_RemoteScript/realtime_server.py:82-85 | the queue is the last 256 commands emitted since the last drain |
| Realtime.RealtimeServer.Arm | AbletonMCPServer_RemoteScript/realtime_server.py:42-45 | the numbering starts again and the queue stays |
| Realtime.RealtimeServer.Disarm | AbletonMCPServer_RemoteScript/realtime_server.py:47-50 | no token and no reference is left, and the queue stays |
| Realtime.RealtimeServer.Dispatch | AbletonMCPServer_RemoteScript/realtime_server.py:108-124 | a move of an armed parameter, both halves of a pair or none, a stop |
| Realtime.RealtimeServer.Drain | AbletonMCPServer_RemoteScript/__init__.py:65-69 | everything queued is taken, in order |
| Realtime.OnlyTheHeadIsOrphaned | AbletonMCPServer_RemoteScript/realtime_server.py:114-121 | only the head of the queue can be half of a pair without the other half |
| Groups.GroupAncestors | AbletonMCPServer_RemoteScript/tracks.py:84-99 | the chain holds distinct successive groups, and the walk ends only at the top or where a group comes again |
| Groups.ChainIsInside | AbletonMCPServer_RemoteScript/tracks.py:84-99 | the chain holds exactly the groups the track is in, even in a corrupt cycle |
| Groups.RejectGroupCycle | AbletonMCPServer_RemoteScript/tracks.py:102-114 | rejected exactly when the group is the track or inside it |
| Groups.PlacingKeepsForest | AbletonMCPServer_RemoteScript/tracks.py:102-114 | placing tracks in a group keeps a forest a forest exactly when neither the group nor a group above it is one of them |
| Groups.MoveKeepsForestIffAllowed | AbletonMCPServer_RemoteScript/tracks.py:149-157 | a move is allowed if and only if the groups stay a forest |
| Groups.MergeKeepsForestIffAllowed | AbletonMCPServer_RemoteScript/tracks.py:173-200 | a merge of different groups is allowed if and only if the groups stay a forest |

## Left out

- Processor.RequestProcessor.Advance: the number of moves of a handler is bounded when the request starts, so a fade, which waits by the clock, is modelled on its own, and the bodies of the other commands and the tick that quitting waits for are not.
- Apply.SendBatch: says how old the stamp was when the clock was last read, not how much time passes until the batch is on the wire.
- Sockets, threads, WebSockets, UDP, SQLite and the file system: byte streams, a committed and an uncommitted table and a host record stand in for them.
- Two threads using one client, two scans at once, or arming the realtime channel during a packet.
- Errors that are not exceptions the code names: a failing host access has already become its default value.
- The wording of error envelopes, hints, messages and receipts, and receipt fields other than state and stage.
- INVALID_PARAMS and BAD_INPUT of the cue commands are one outcome, and names arrive without their outer blanks.
- Bulk cue creation on a host that ignores toggles; a playing transport.
- Vendor labels, which are not part of the catalog's derivation contract, and errors that are transient.
- Objects of canonical JSON with keys that are not strings, beyond their rejection, and ints too long for Python to print.
- The clamping of the search limit, the choice of categories and the case folding of the query.
- The order in which the quality gate prints lines, measuring source code, and reading baselines from disk or git; an unreadable baseline counts as an empty one in an update.
- Resolution of devices and parameters for automation and fades, fade parameters of another type than a number, and the conversion and clamping of a fade's target.
- The other checks of the group validators, and moving tracks, which Live does not offer.
- The tool layer, command tables, readback helpers, generators, audio analysis, packaging and release scripts, because they would add only easy members.
