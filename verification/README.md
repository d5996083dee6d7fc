# Screen replication, batching, framing, layouts and config includes

A Dafny 4.11 model of the parts of the program in which several pieces of code have to agree with
each other, with proofs of what they agree on. `dafny verify dfyconfig.toml` checks all of it.

The runtime server keeps, for every client and pane, the last grid it sent. A publish encodes the
next grid either whole or as row segments against that cache; the bytes travel through a queue; the
desktop client decodes them and patches its own copy, filtering by runtime revision and emptying its
panes when the view revision changes. Remote clients get the same frames through a batcher that
drops superseded ones. Around this stand the frame reader that retries on timeouts, the tab-list
codecs, the split trees of named layouts, and the config loader that follows includes.

How the model is laid out:

- `Bytes`, `Grid`: machine integers, little-endian fields, cells and grids.
- `WireEncode`, `WireDecode`: the server's encoders and the client's decoders, loops included.
- `Snapshot`, `DeltaRefinement`: the client's pane snapshots, and the proof that a delta does what
  sending the whole grid would have done.
- `MobileClient`, `MobileReplication`, `RowCache`: the mobile client's decoders, row identities included,
  against the same encoders; server and mobile client together over whole runs; the rows it caches by
  identity.
- `Framing`, `RetryingReader`: frames on the byte stream; reading them through short reads and
  timeouts.
- `RemoteState`, `RemoteServer`, `ServerRun`, `ControlDedup`: a client record on the server, the
  operations on it as classes that change it in place, runs of them, and the payload cache.
- `QueueLabels`: what stands in a client's queue over whole runs, and under which label.
- `ClientGui`, `RowStamps`: the client object that reacts to stream frames; its row version stamps.
- `Replication`: server, queue and client together over whole runs.
- `PublisherRuns`, `FailingRuns`: which steps of any publisher keep the two together, and runs, step
  for step as the server makes them, in which they part.
- `Adapter`: the server's terminal snapshots as wire grids, and what a client shows of them.
- `Batcher`, `BatchCollector`, `BatchOrder`, `PaneOrder`, `Changes`, `BatchScreen`,
  `BatchReplication`: the batcher as a function, as the in-place buffers and loop that compute it, and
  what it keeps of lanes, of panes, of the screen, and of a client that reads its output.
- `TabList`, `Layout`, `ConfigIncludes`, `IncludeOnce`: the side cores.

Each method that changes an object or loops is proved equal to a function on values, and the laws
are proved about those functions. Strings are their UTF-8 bytes, and UTF-8 validity is a predicate
parameter. The two JSON payloads that the client reads are parsed by arbitrary partial functions.
Clocks are numbers, and time differences saturate at zero.

Places where the code does less than it says, stated exactly by the lemmas named:

- Deltas are coloured with the compiled-in colours and full states with the configured ones
  (`DeltaRefinement.ThemeExactness`).
- A runtime state with another view revision than the client was told empties the client, while the
  server keeps its caches and goes on sending deltas against them. The broadcast to all local viewers
  always carries revision 1 (`FailingRuns.SharedBroadcastRun`). Typing touches the view and publishes
  without announcing the new revision, so the next runtime state that is sent for any other reason has
  the same effect (`FailingRuns.TypingRun`).
- A pane delta that the client's revision filter drops is cached all the same: when the runtime
  revision moves on for another client's sake, passive panes stand still
  (`FailingRuns.FilteredRun`).
- The end-to-end theorems carry the publisher's discipline, `Replication.Disciplined`, on every step:
  publishes follow some runtime state and carry its runtime revision, and a runtime state repeats the
  view revision the client was told unless nothing is cached. Attaching and typing keep to it
  (`FailingRuns.AttachLeads`, `FailingRuns.TypeLeads`); the runs above break it.
  `PublisherRuns.AgreementExactly` says, for runs of any publisher and both lanes, which steps keep
  server and client together and which do not.
- The mobile client files the first rows of the screen under the identities of the rows a delta changed,
  which need not be the first: rows it shows when scrolled back may be others'. It is right exactly when
  they read the same (`RowCache.DeltaFilesExactly`, with `RowCache.SecondRowMisfiled` as a witness). Its
  filter by pane revision, unlike the desktop client's by runtime revision, loses nothing
  (`MobileReplication.MobilePanesAgree`).
- The input a client sends is recorded for acknowledgement, and forgotten again by the touch that
  follows (`FailingRuns.InputGoesUnacknowledged`).
- Wire cells carry the first character only, no underline and no colour that equals the terminal's
  default; a client shows the server's terminal exactly when nothing else was there to carry
  (`Adapter.RenderedExactly`).
- A timeout between a frame's header and its payload loses the header
  (`RetryingReader.ResumableExactly`, `RetryingReader.LostHeader`).
- A tab-list reply goes past the payload cache, so the most recent list sent is not always the last
  one in the stream (`ControlDedup.LatestTabListExactly`).
- A pending delta may be replaced by a later delta. For a lane between barriers that is right exactly
  when the last update is a full state or rewrites every cell of each earlier one
  (`BatchScreen.LaneExactly`, with `BatchScreen.DeltaOverDeltaLosesCells` as a witness); for whatever
  batch, exactly when output and input have the same effect (`BatchScreen.EffectExactly`,
  `BatchReplication.BatchedDrainExactly`).
- A focus change inside a batch can put a pane's newer frame before its older one. Between barriers
  the order is kept exactly when the pane's last update is passive or all are focused
  (`PaneOrder.PaneOrderExactly`, `PaneOrder.BatchPaneOrderExactly`); without coalescing it is always
  kept (`PaneOrder.PaneOrderUncoalesced`).
- Runtime states leave a stretch of a batch ahead of the updates queued before them, which are then
  judged by the last one (`BatchReplication.StatesGoFirst`). For one update that is harmless exactly
  when the client's filter treats it the same (`BatchReplication.OvertakingExactly`).
- Strings over 65535 bytes are cut, possibly inside a character (`TabList.ClippedRoundTrip`,
  `TabList.TabListRoundTripExactly`).
- The documentation calls the panes of even layouts equal in width or height (src/layout.rs:28-31).
  Split ratios are clamped to a tenth and every split loses a border, so this holds exactly up to two
  panes, and up to ten if there were no border (`Layout.ShippedEvenExactly`,
  `Layout.EvenExtentsExactly`, `Layout.TiledSharesExactly`, `Layout.MainSharesExactly`).

## Model

| member | source | states |
|---|---|---|
| Bytes.LERoundTrip | src/remote_wire.rs:813-855 | a value that fits its width survives little-endian encoding |
| Bytes.NarrowIsPrefix | src/remote_wire.rs:813-855 | least significant byte first: a narrower field holds the first bytes of a wider one |
| Grid.CellsRoundTrip | src/client_gui.rs:2683-2712 | cells decode to themselves from the front of any longer buffer |
| Grid.RowsDetermineCells | src/remote_wire.rs:887-905 | grids of one size with equal rows are equal |
| WireEncode.EncodeFullState | src/remote_wire.rs:813-855 | the append loops produce header, cells and trailer of the full payload, for local and remote clients |
| WireEncode.ChangedSegmentLeast | src/remote_wire.rs:1024-1039 | any interval outside which two rows agree contains the changed segment: it is the least one |
| WireEncode.CollectChangedRows | src/remote_wire.rs:886-911 | the row loop records exactly the changed rows, each with its segment, in order |
| WireEncode.NoChangesExactly | src/remote_wire.rs:886-911 | no row change is recorded if and only if the two grids hold the same cells |
| WireEncode.EncodeDelta | src/remote_wire.rs:857-980 | returns nothing or the delta payload, exactly as the specification of the fallback says |
| WireEncode.FallsBackExactly | src/remote_wire.rs:863-923 | there is no delta exactly when sizes differ, or the grid is non-empty and every row differs in both its first and its last column |
| WireEncode.PayloadLength | src/remote_wire.rs:813-997 | no payload of a grid, whole or as a delta, is longer than 60 + rows * (12 * columns + 14) bytes |
| WireDecode.DecodeRemoteFullState | src/client_gui.rs:2656-2718 | the offset loop reads the specified grid, and rejects every payload that is too short |
| WireDecode.FullRoundTripAnyTail | src/client_gui.rs:2656-2718 | a full state decodes to itself whatever follows its cells, with epoch, viewport top and scrollback total reset to 0 |
| WireDecode.FullRoundTrip | src/remote_wire.rs:813-855 | decoding the local encoding of a well-formed grid returns the grid and the input acknowledgement |
| WireDecode.PaneFullRoundTrip | src/client_gui.rs:2720-2731 | the pane-prefixed full state returns pane id, runtime revision and grid |
| WireDecode.DecodeRemoteDelta | src/client_gui.rs:2733-2819 | the nested offset loops read the specified row deltas, and reject truncated payloads |
| WireDecode.RowsRoundTrip | src/client_gui.rs:2770-2808 | encoded row deltas decode to themselves from the front of any longer buffer |
| WireDecode.DeltaRoundTrip | src/remote_wire.rs:925-980 | decoding an encoded delta returns its rows, cursor and acknowledgement, with no scroll |
| WireDecode.PaneDeltaRoundTrip | src/client_gui.rs:2821-2831 | the pane-prefixed delta returns pane id, runtime revision and delta |
| WireDecode.ScrolledDecodes | src/client_gui.rs:2733-2819 | a delta with the scroll flag decodes to the same rows, cursor and acknowledgement, and to the signed distance it carries |
| WireDecode.ChangedRowsEncodable | src/remote_wire.rs:886-911 | whatever the encoder records fits the 16-bit counts of the wire |
| MobileClient.TrailerRoundTrip | ios/Sources/WireCodec.swift:520-562 | the trailer decodes to epoch, viewport top, scrollback total, the line the cursor is on, and the row ids it was built from |
| MobileClient.MobileFullExactly | ios/Sources/WireCodec.swift:325-377 | with or without the input prefix the mobile decoder returns the server's grid, unless it is empty; its row ids are the consecutive lines from the viewport top, up to saturation, and the cursor's id is the id of its row |
| MobileClient.PaneHeaderRoundTrip | ios/Sources/WireCodec.swift:499-518 | tab, pane and both revisions of a pane payload come back, and its body is left |
| MobileClient.MobilePaneRoundTrip | ios/Sources/WireCodec.swift:499-505 | a pane's full state comes back with its four header fields, its grid and its row ids |
| MobileClient.MobileDeltaRefines | ios/Sources/WireCodec.swift:379-445 | a delta in either form, overlaid on a flat screen of the old grid, gives the new grid; the id of each changed row is the one a full state of the new grid gives it |
| MobileReplication.MobileEndToEnd | ios/Sources/ClientWireState.swift:192-219 | after any run of a remote client, with screen publishes one at a time and any operations between their locks, a mobile client that has read the queue shows the screen the server encodes against |
| MobileReplication.MobilePaneExactly | ios/Sources/ProtocolClient.swift:1896-1957 | a publish against what a mobile pane shows leaves it showing the next grid if and only if the update is taken or the pane showed that grid already; taken are a full state that is not older and a delta that is newer, by pane revision and then runtime revision |
| MobileReplication.NeverGoesBack | ios/Sources/ProtocolClient.swift:1896-1941 | on any bytes a pane never goes back to an older update, and a delta that comes twice is applied once |
| MobileReplication.StampMovesExactly | src/runtime.rs:343-361 | the pane revision stands still if and only if the grid does, rises with every change until it wraps, and is never 0 |
| MobileReplication.MobilePanesAgree | src/runtime.rs:343-361 | after any run of publishes of a pane to this and other clients, renewals and hidings, under any runtime revisions, the mobile pane shows what the server encodes against: revisions rise exactly with changes, so what the client drops it shows already |
| MobileReplication.WrappedIsStale | src/runtime.rs:350-354 | when the pane revision wraps, a pane that was up to date takes no changed grid any more |
| RowCache.Panes.UpdatePaneReplica | ios/Sources/ProtocolClient.swift:1959-1991 | the loop over the identities, the restart under another epoch or width, and the trimming give the specified replica of that pane, and no other changes |
| RowCache.TrimmedExactly | ios/Sources/ProtocolClient.swift:1993-2000 | trimming keeps all rows or ten thousand, unchanged and newer than all it drops |
| RowCache.UpdatedExactly | ios/Sources/ProtocolClient.swift:1959-1991 | a replica states what the last update did; rows from before are left only under the same epoch and width and where no identity came along |
| RowCache.FullFilesExactly | ios/Sources/ProtocolClient.swift:1984-1989 | a full state files every row under its own identity, whatever was cached, if and only if no different rows stand where identities have run out |
| RowCache.FullUpdateRight | ios/Sources/ProtocolClient.swift:1959-2000 | after a full state, what is cached under the identity of a row of the screen is that row, and it is cached if there was room |
| RowCache.DeltaFilesFirstRows | ios/Sources/ProtocolClient.swift:1984-1989 | what a delta files under the identity of its k-th changed row is the k-th row of the screen |
| RowCache.DeltaFilesExactly | ios/Sources/ProtocolClient.swift:1984-1989 | from a right cache of the old grid, a delta from the server gives a right cache of the new one if and only if each k-th changed row reads like the k-th row of the screen |
| RowCache.SecondRowMisfiled | ios/Sources/ProtocolClient.swift:1984-1989 | a screen of two rows whose second changes: the second is cached as the first |
| Snapshot.WriteSegment | src/client_gui.rs:2862-2880 | the innermost loop overwrites the segment's columns, clipped at the width, and no others |
| Snapshot.PatchOneRow | src/client_gui.rs:2855-2881 | one row entry patches one row and moves its stamp once; rows out of range are skipped |
| Snapshot.ApplyRemoteDeltaSnapshot | src/client_gui.rs:2833-2892 | the loop over row entries yields the patched rows, stamps and cursor, scroll included |
| Snapshot.ScrollMoves | src/client_gui.rs:2894-2922 | rows and their stamps move together by the distance of a scroll, either way; the others come round blank under a new stamp; the distance -32768 clears all rows |
| Snapshot.BlankIsDistinct | src/client_gui.rs:2894-2922 | no cell from the wire is drawn like that of a row that came round |
| Snapshot.PatchedDefaults | src/client_gui.rs:2862-2880 | whatever the theme, a cell a delta writes without colours of its own is drawn in the compiled-in ones |
| DeltaRefinement.FullStateShows | src/client_gui.rs:1626-1669 | rendering a decoded full state shows the server's grid |
| DeltaRefinement.ApplyDeltaRows | src/client_gui.rs:2833-2892 | row by row, what applying the delta from one grid to another makes of any snapshot of that size |
| DeltaRefinement.DeltaRepairs | src/remote_wire.rs:886-923 | a delta turns every snapshot that agrees with the new grid outside the changed segments into one that shows it, whatever the segments held |
| DeltaRefinement.ShownGridsQualify | src/remote_wire.rs:1024-1039 | a snapshot of the old grid qualifies, and so does one of the new grid: the delta may be applied twice |
| DeltaRefinement.DeltaRefinesFull | src/remote_wire.rs:857-980 | whenever there is a delta, decoding it and applying it to a snapshot of the old grid shows the new grid |
| DeltaRefinement.OneThemeIsExact | src/client_gui.rs:1626-1669 | under a single theme the patched cells are those of a fresh rendering |
| DeltaRefinement.ThemeExactness | src/client_gui.rs:2924-2968 | under a configured theme the delta path gives the full path's cells if and only if every written cell states the colours in which the theme departs from the compiled-in ones |
| Framing.HeaderRoundTrip | src/remote_wire.rs:312-326 | the header parses to the type and the low 32 bits of the length |
| Framing.FrameRoundTrip | src/remote_wire.rs:312-338 | a frame in front of any bytes reads back as itself if and only if its payload is shorter than 2^32 |
| Framing.ReadExactly | src/remote_wire.rs:321-338 | a message is read from a stream if and only if the stream begins with that message as encoded, of a payload shorter than 2^32; what is left is what follows it |
| Framing.RefusedExactly | src/remote_wire.rs:321-338 | bad magic is reported exactly when seven bytes are there and the first two are not 0x47 0x53, an unknown message exactly when they are and the type is none of the known, an end of stream exactly when fewer than seven bytes are there or a good header announces more than there is |
| Framing.KnownTypes | src/remote_wire.rs:51-87 | a byte is a message type if and only if it is one of the thirty-four declared |
| Framing.StreamRoundTrip | src/client_gui.rs:2530-2595 | reading the concatenation of any list of such frames returns exactly that list, and then what follows |
| RetryingReader.ByteStream.Read | src/remote_wire.rs:340-377 | one read: a timeout, the end, or a prefix of what is left, copied to its place in the buffer |
| RetryingReader.ReadExactRetrying | src/remote_wire.rs:340-377 | the loop with its idle counter fills the buffer or fails as specified for every schedule of reads |
| RetryingReader.ReceiveMessage | src/remote_wire.rs:379-399 | header then payload, with the error of whichever read fails |
| RetryingReader.ReadExactConsumes | src/remote_wire.rs:340-377 | under every schedule a filled buffer holds exactly the next bytes of the stream, and a failed read has consumed fewer than were asked for |
| RetryingReader.ReadExactBounded | src/remote_wire.rs:340-377 | a buffer of length L takes at most 1 + (L - 1)(m + 1) reads, although the idle counter resets on progress |
| RetryingReader.RetryingAgreesWithPlain | src/remote_wire.rs:379-399 | a message received is the one the plain reader returns, with exactly its frame consumed; an end of stream or a malformed header is reported as the plain reader reports it |
| RetryingReader.ReceivesOnlyFrames | src/remote_wire.rs:379-399 | under every schedule what is received was a whole encoded frame at the front of the stream, with the stream left right behind it; bad magic and unknown types are only reported of such bytes |
| RetryingReader.GivesUpExactly | src/remote_wire.rs:340-377 | an idle first read ends the call at once; after progress it ends as idle only when one more read in a row than tolerated was idle |
| RetryingReader.NeverWaitsLonger | src/remote_wire.rs:340-377 | of any that many reads in a row of a call that fills its buffer, one is not idle |
| RetryingReader.IdleExactLoss | src/remote_wire.rs:365-366 | an idle error leaves the stream untouched if and only if it struck the first read |
| RetryingReader.ResumableExactly | src/remote_wire.rs:365-366 | reading again after a timeout is safe if and only if the very first read of the frame went idle |
| RetryingReader.LostHeader | src/remote_wire.rs:396-399 | with the header read and the payload idle, the stream is left at the payload |
| RemoteServer.ClientState.ClearStreamState | src/remote_state.rs:96-100 | empties the screen cache, the pane cache and the input acknowledgement, and nothing else |
| RemoteServer.ClientState.TouchView | src/remote_state.rs:102-105 | moves the revision on, past 0, and clears the stream state |
| RemoteServer.ClientState.AttachUi | src/remote_state.rs:107-111 | attaches, drops the detach time and touches |
| RemoteServer.ClientState.DetachUi | src/remote_state.rs:113-117 | detaches at the given time and touches |
| RemoteServer.Server.Connect | src/remote_listener.rs:34-46 | a new record with an idle view; the class invariant, that records are not shared and every view keeps its lifecycle invariant, holds of it and after every method |
| RemoteServer.Server.InitializeClientView | src/remote.rs:481-499 | scopes one client's view and touches it; all other clients are unchanged |
| RemoteServer.Server.SubscribeClientToRuntime | src/remote.rs:517-525 | subscribes one client, clearing its caches only if it was not subscribed |
| RemoteServer.Server.UnsubscribeClientFromRuntime | src/remote.rs:527-533 | unsubscribes one client and clears its caches |
| RemoteServer.Server.SweepIdleViews | src/remote.rs:535-561 | the loop expires exactly the views detached for long enough, in any order of the map |
| RemoteServer.Server.RetainLocalViewerPaneStates | src/remote_server_targets.rs:39-50 | the loop prunes the pane cache of every subscribed local client to the visible panes |
| RemoteServer.Server.SendCachedControlPayload | src/remote_server_control.rs:129-163 | sends and caches a payload unless the cache holds an equal one |
| RemoteServer.Server.SendTabListReply | src/remote_server_control.rs:26-32 | sends past the cache |
| RemoteServer.Server.BeginScreenPublish | src/remote_server_stream.rs:11-45 | first lock: what a screen publish captures, or nothing for an unsubscribed client |
| RemoteServer.Server.BeginPanePublish | src/remote_server_stream.rs:77-114 | first lock: what a pane publish captures |
| RemoteServer.Server.FinishPublish | src/remote_server_stream.rs:115-158 | second lock: caches the new grid and queues the frame, or neither if the client was unsubscribed meanwhile |
| ServerRun.TouchRenews | src/remote_state.rs:96-105 | every touch gives a new revision other than 0 and leaves nothing cached |
| ServerRun.StepKeepsInvariant | src/remote_server_stream.rs:86-129 | no operation breaks the view invariant, however publishes are interleaved |
| ServerRun.LifecycleHolds | src/remote.rs:481-561 | in every run the revision is never 0, an attached view has no detach time, and an unsubscribed client holds no cached grid |
| ServerRun.IdStays | src/remote.rs:481-499 | over every run a view keeps the id of the client it was first initialized for |
| ServerRun.LatestScopeHolds | src/remote.rs:481-515 | over every run a view looks at the tab, focused pane and visible panes it was last given, until it expires |
| ServerRun.SubscriptionExactly | src/remote.rs:517-533 | subscribing twice is subscribing once; a new subscription and an ended one leave nothing to encode against and keep the revision |
| ServerRun.PrunedExactly | src/remote_server_targets.rs:39-50 | after pruning, the next publish of a hidden pane to a subscribed local client is a full state; every other publish is the one it would have been |
| ServerRun.NoGridsUnsubscribed | src/remote_server_stream.rs:86-129 | from unsubscribing or detaching until subscribing or attaching again, no run queues a grid, half-done publishes included |
| ServerRun.AttachStartsOver | src/remote_state.rs:107-117 | attaching, detached or not, leaves a new revision, nothing to encode against, and the scope as it was |
| ServerRun.InitializeAttaches | src/remote.rs:481-499 | a client given a view counts as attached, subscribed or not, as it was |
| ServerRun.RevisionMovesExactly | src/remote_state.rs:102-117 | the revision moves if and only if the view is given a scope, attached, detached or expired; then nothing sent under the old one is left to encode against or to acknowledge |
| ServerRun.InputAwaits | src/remote.rs:727-733 | over every run recorded input is what the next screen publish acknowledges, until the view is renewed, its subscription moves or other input comes |
| ServerRun.RemovedForGood | src/remote_auth.rs:212-216 | no run brings a removed client back, publishes under way included |
| ServerRun.AttachedNeverExpires | src/remote_state.rs:107-117 | without a detach no run expires an attached view |
| ServerRun.ExpiresExactly | src/remote.rs:535-561 | a detached client that does not come back is left waiting by every sweep that is not overdue, whatever else the run does; the next sweep counts one expiration, and leaves the view unsubscribed, unscoped and empty, if and only if it is overdue |
| ServerRun.ExpiresOncePerDetach | src/remote.rs:535-561 | over every run there are at most as many expirations as detaches |
| ControlDedup.DedupRefinesAlwaysSend | src/remote_server_control.rs:129-163 | over every run a kind's stream is the always-send stream without immediate repetitions: it never repeats itself and ends in the most recent send |
| ControlDedup.TabListArrivesExactly | src/remote_server_control.rs:129-150 | one send on any record: its list ends the stream if and only if the cache holds another or the stream already ended in it |
| ControlDedup.LatestTabListExactly | src/remote_server_control.rs:26-32 | over every run, the stream ends in the most recent list sent if and only if no reply came after the last send that changed anything, or the last such reply was that list |
| ControlDedup.ReplyHidesLatestSend | src/remote_server_control.rs:26-32 | a reply between two equal sends leaves the client with the reply |
| QueueLabels.PublishLabelled | src/remote_server_stream.rs:77-158 | a published pane is queued under its own id and focus, and its frame decodes to an update of that pane at the publish's runtime revision; a published screen is queued as a screen |
| QueueLabels.ScreenAcknowledges | src/remote_server_stream.rs:11-58 | of a screen published to a local client, whole or as a delta, the client reads back the input last recorded in its view |
| QueueLabels.QueueIsLabelled | src/remote_server_stream.rs:77-158 | over every run, however publishes interleave, each pane update in the queue decodes to an update of the pane it is queued under and goes back to a publish of that pane, marked as focused if and only if the view focused it when that publish began; frames carry no grids |
| QueueLabels.QueuedPanesArePlain | src/remote_batcher.rs:264-288 | so the pane updates of every run are what the laws about batches of them ask for |
| ClientGui.ClientApp.ApplyUiRuntimeState | src/client_gui.rs:241-263 | takes over revisions and focus; a different view revision drops every snapshot |
| ClientGui.ClientApp.AllocateFullSnapshotRevisionSeed | src/client_gui.rs:1335-1341 | hands out a seed and moves past one stamp per row |
| ClientGui.ClientApp.AllocateSnapshotGeneration | src/client_gui.rs:1343-1347 | hands out consecutive generations, wrapping |
| ClientGui.ClientApp.HandleStreamEvent | src/client_gui.rs:1047-1166 | what each event does to the client, revision filters included |
| ClientGui.ClientApp.ApplyUiSnapshot | src/client_gui.rs:265-276 | replaces every pane, stamps them alike and takes a generation |
| RowStamps.DecodedGridsAreWhole | src/client_gui.rs:2656-2718 | every grid the client decodes has rows times columns cells |
| RowStamps.GenerationCounts | src/client_gui.rs:1085-1113 | the generation counts the accepted full states and the UI snapshots |
| RowStamps.OthersUntouched | src/client_gui.rs:1047-1166 | an event changes no pane but the one it is for; a screen without a focused pane lands nowhere |
| RowStamps.LatestColoursDraw | src/client_gui.rs:1047-1166 | full states are drawn in the colours last received, whatever came in between |
| RowStamps.SnapshotHeld | src/client_gui.rs:265-276 | after a UI snapshot the client holds exactly its terminals, each under its own pane with size, rows and cursor unchanged, under the snapshot's theme and focus |
| RowStamps.FreshStamps | src/client_gui.rs:1335-1341 | rows of two accepted full states, and of one, never share a stamp until 2^64 have been handed out |
| RowStamps.RunRowAfter | src/client_gui.rs:2855-2881 | with neither between, a row's stamp counts the writes to it, and no write means no change |
| RowStamps.StampsAreSound | src/client_gui.rs:1335-1347 | two moments less than 2^64 updates apart, stream frames and UI snapshots alike, with equal generation and equal row stamp show the same row |
| Replication.PublishDecodes | src/remote_server_stream.rs:11-158 | the client decodes every published frame to the event that was meant |
| Replication.CommitKeepsAgreement | src/remote_server_stream.rs:77-158 | a disciplined publish keeps the server's cache and the drained client in agreement |
| Replication.StepReplicates | src/client_gui.rs:1077-1113 | every disciplined step keeps server cache, queue and client in agreement, also between the two locks of a publish |
| Replication.RunReplicates | src/remote_server_stream.rs:77-158 | so does every disciplined run |
| Replication.EndToEnd | src/client_gui.rs:1047-1166 | after any disciplined run, draining the queue leaves every cached pane grid, and the cached screen, shown on the client |
| Replication.EndToEndExact | src/client_gui.rs:1626-1669 | with the compiled-in colours the client holds the very cells, size and cursor of a fresh rendering |
| Replication.BytesDrainTheQueue | src/client_gui.rs:2530-2595 | reading the concatenated bytes is draining the queue frame by frame |
| Replication.EndToEndBytes | src/client_gui.rs:2530-2595 | the end-to-end result from the raw byte stream |
| Replication.RuntimeStateExactly | src/client_gui.rs:241-263 | a runtime state keeps the cached panes on the client if and only if none is cached, or the client has no view revision, or it is the same one |
| Replication.SharedBroadcastBreaks | src/runtime_ui.rs:417-436 | sent to a client that shows some cached pane and is past view revision 1, the broadcast leaves a cached pane that the client does not show |
| Replication.PanePublishExactly | src/client_gui.rs:1077-1113 | a pane publish keeps the cached panes on the client if and only if it passes the revision filter or the pane already shows the new grid |
| PublisherRuns.StepExactly | src/client_gui.rs:241-263 | a step of any publisher keeps everything cached, panes and screen, on the drained client if and only if it fits: a runtime state drops nothing that is cached and focuses what shows the screen; a publish passes the filter, has a place to land, and leaves what else is cached for that place looking as cached |
| PublisherRuns.AgreementExactly | src/remote_server_stream.rs:11-158 | for every run from a new connection, disciplined or not, server and drained client agree on both lanes at every moment if and only if every step fits at its moment |
| FailingRuns.AttachLeads | src/runtime_server.rs:204-228 | attaching a client, from its scope to the first grids of its focused and a passive pane, is a disciplined run and leaves both cached |
| FailingRuns.TypeLeads | src/runtime_server.rs:883-891 | so is typing: input recorded, view touched, tab published without a runtime state |
| FailingRuns.InputGoesUnacknowledged | src/runtime_server.rs:278-293 | the grid sent after typed input decodes to no acknowledgement, the touch having cleared what was recorded |
| FailingRuns.SharedBroadcastRun | src/runtime_server.rs:537-551 | attached, then sent the broadcast of view revision 1, then any rounds of deltas on both lanes: the drained client shows no pane, while the server caches the last grids |
| FailingRuns.TypingRun | src/runtime_server.rs:304-335 | attached, typed, then told the view revision it now has, then any rounds of deltas: the same |
| FailingRuns.FilteredRun | src/runtime_server.rs:1184-1189 | attached, then any rounds of deltas under runtime revisions it was not told: the passive pane stays as first shown, so once the server's grid reads differently the client does not show it |
| FailingRuns.UsualGridsAreShort | src/remote_wire.rs:317-326 | every publish of a grid within the size bound fits the 32-bit length of a frame |
| Adapter.FlagsSurvive | src/remote_full_state.rs:69-86 | each style bit the server sets is the one the client reads |
| Adapter.CellExactly | src/client_gui.rs:2924-2960 | a cell comes back from the wire as it was if and only if it has at most one character other than NUL, one or two columns, no underline, and defaults that mean the same on both sides |
| Adapter.DrawnIsReadable | src/client_gui.rs:2924-2960 | whatever codepoint comes in, a cell draws one Unicode scalar value, or none for 0 and for what is no scalar value |
| Adapter.GridIsWhole | src/remote_full_state.rs:60-112 | the wire grid of a regular terminal has rows times columns cells, row for row those of the terminal |
| Adapter.RenderedExactly | src/client_gui.rs:1626-1669 | a client draws the server's terminal, cells, size and cursor, if and only if the wire can carry every cell |
| Adapter.UiRenderedExactly | src/remote_full_state.rs:15-59 | the same for the adapter of UI snapshots, for which black is the foreground |
| Adapter.TerminalIdentified | src/remote_full_state.rs:60-112 | a mobile client reads the scrollbar's offset and total, and the rows' line numbers, back from a terminal; those of a UI snapshot count from 0 to its row count |
| Adapter.TerminalEndToEnd | src/runtime_server.rs:338-347 | after any disciplined run a drained client shows each cached terminal whose cells the wire can carry |
| Batcher.Put | src/remote_batcher.rs:160-167 | a pending buffer grows by one exactly when it does not hold the message's lane |
| BatchCollector.PendingOutboundFrames.Set | src/remote_batcher.rs:121-135 | the newest frame of a control kind takes the pending one's place, keeping the order of first arrival |
| BatchCollector.PendingOutboundFrames.TakeAll | src/remote_batcher.rs:137-150 | the drain loop yields the pending frames in order and leaves nothing |
| BatchCollector.PendingPaneFrames.Set | src/remote_batcher.rs:160-167 | the newest frame of a pane takes the pending one's place, counted as coalesced exactly then |
| BatchCollector.PendingPaneFrames.TakeAll | src/remote_batcher.rs:169-177 | the drain loop yields the pending frames in order and leaves nothing |
| BatchCollector.Collector.FlushPaneUpdates | src/remote_batcher.rs:195-212 | focused panes, then the screen, then passive panes |
| BatchCollector.Collector.Push | src/remote_batcher.rs:214-288 | the closure's effect on all buffers and counters, for each kind of message and both settings |
| BatchCollector.CollectOutboundBatch | src/remote_batcher.rs:180-314 | the whole loop over buffers, closures and counters computes the batch of the specification |
| BatchOrder.LanesAreThinned | src/remote_batcher.rs:121-306 | for both settings, every lane comes out as a subsequence of what went in, ending in the last message that went in |
| BatchOrder.DirectFramesSurvive | src/remote_batcher.rs:231-246 | frames that are not coalescible all come out, in order |
| BatchOrder.ClassifiedByType | src/remote_batcher.rs:316-345 | the server's control payloads take the lane of their kind, and every other message is a priority frame or a barrier, if and only if its type says so |
| BatchOrder.BarrierSeparates | src/remote_batcher.rs:231-246 | a barrier splits the batch into two that are batched as if each were alone |
| BatchOrder.PriorityOvertakesScreens | src/remote_batcher.rs:231-237 | a priority frame comes out after all pending control frames and before all pending screens and panes |
| BatchOrder.BatchConserves | src/remote_batcher.rs:180-314 | emitted plus coalesced frames are the messages pushed, the saturating subtraction never saturates, and the output is a sub-multiset of the input |
| BatchOrder.CountersExactly | src/remote_batcher.rs:214-314 | each of the three counters is what went in of its class less what came out of it, for both settings; no other frame is lost |
| BatchOrder.FocusFlipReorders | src/remote_batcher.rs:297-306 | the smallest batch out of order: a passive update and then a focused one come out the other way round |
| PaneOrder.PaneOrderExactly | src/remote_batcher.rs:264-306 | between barriers, with coalescing, a pane's updates come out in order and ending in the last if and only if the last is passive or all are focused |
| PaneOrder.PaneOrderUncoalesced | src/remote_batcher.rs:264-287 | without coalescing every pane keeps its order |
| PaneOrder.LeavesInOrder | src/remote_batcher.rs:195-212 | a coalesced stretch without barriers leaves as frames, focused panes, the screen, passive panes: no later kind stands before an earlier one |
| BatchOrder.UncoalescedWaits | src/remote_batcher.rs:247-288 | without coalescing, a screen or passive pane that goes in last comes out last, but for focused panes after a screen |
| BatchOrder.FocusedAlwaysCoalesce | src/remote_batcher.rs:264-288 | of frames and focused panes the batch, counters included, is the same under either setting |
| PaneOrder.BatchKeepsPaneOrder | src/remote_batcher.rs:180-314 | a whole batch keeps a pane's order when every stretch between its barriers does |
| PaneOrder.BatchPaneOrderExactly | src/remote_batcher.rs:180-314 | for updates that can be told apart, if and only if every stretch does |
| BatchScreen.AbsorbsExactly | src/client_gui.rs:2833-2892 | one frame may take another's place, for every screen, if and only if it is a full state, or the other changes nothing, or both are deltas and it rewrites every cell of the other |
| Changes.OutcomeExactly | src/client_gui.rs:2833-2892 | two sequences of redraws, drops and deltas make the same of every screen if and only if both forget the screen and make the same of nothing, or neither does and they leave the same cursor and cells |
| BatchScreen.EffectExactly | src/client_gui.rs:2833-2892 | two sequences of frames draw the same on every screen if and only if both hold a full state and draw the same from nothing, or neither does and they leave the same cursor and cells |
| BatchScreen.SettledExactly | src/remote_batcher.rs:160-167 | showing only the last of some updates is right for every screen if and only if it is a full state, or each earlier one changes nothing or is a delta that the last one, a delta, rewrites |
| BatchScreen.LaneExactly | src/remote_batcher.rs:247-306 | for a whole lane of a coalesced batch, with any number of updates and nothing to flush it in between: the batch's picture is right for every screen if and only if the last update settles the earlier ones |
| BatchScreen.BatchPreservesScreen | src/remote_batcher.rs:180-314 | for both settings and wherever the barriers are, a lane ends in the same picture batched and unbatched when each emitted frame settles those it stands for |
| BatchScreen.FullStatesPreserveScreen | src/remote_batcher.rs:180-314 | in particular when every replacing frame is a full state |
| BatchScreen.SteadyPanePreserved | src/remote_batcher.rs:264-288 | a pane whose focus does not change within the batch ends in the same picture when its lane does |
| BatchScreen.FlippingPanePreserved | src/remote_batcher.rs:264-306 | a pane that changes focus but keeps its order ends in the same picture when its last update settles the earlier ones |
| BatchScreen.PairExactly | src/remote_batcher.rs:247-274 | the case of two updates, for which the batch holds the newer alone |
| BatchScreen.DroppedDeltaExactly | src/remote_wire.rs:857-980 | of two server deltas in a row the second alone gives the last grid if and only if every cell outside its segments already looked the same |
| BatchScreen.DeltaOverDeltaLosesCells | src/remote_batcher.rs:160-178 | two deltas the server does produce, of which the second alone leaves a wrong cell |
| BatchReplication.DrainedPane | src/client_gui.rs:1047-1166 | a drained client has the revisions, focus and theme the messages leave, and shows of each pane what they do to it one after the other, on both lanes |
| BatchReplication.BatchedDrainExactly | src/remote_batcher.rs:180-314 | for any batch, all message kinds, priorities, barriers and either setting: a pane of every client with given revisions, focus and theme looks the same after the batched and the unbatched queue if and only if what comes out does to it what went in does |
| BatchReplication.PaneUpdatesExactly | src/remote_batcher.rs:264-306 | when only pane updates reach a snapshot, if and only if what comes out of the pane's own updates has the effect of all of them |
| BatchReplication.FootingKept | src/remote_batcher.rs:121-150 | whatever is coalesced and reordered, a client ends with the revisions, focus and theme it would have ended with, when control frames decode |
| BatchReplication.StatesGoFirst | src/remote_batcher.rs:221-234 | in a stretch without priorities and barriers, control frames come out first, so every update that comes out is judged by the last runtime state and appearance of the stretch |
| BatchReplication.OvertakingExactly | src/remote_batcher.rs:221-234 | a runtime state that overtakes a pane update is harmless on every client with given revisions if and only if the filter treats the update alike before and after, or, when the view changes, the update cannot put the dropped pane back |
| TabList.EncodeTabList | src/remote_wire.rs:793-811 | the append loop produces the specified bytes |
| TabList.ReadString | src/remote_wire.rs:618-628 | a length-prefixed string at an offset, or why it cannot be read |
| TabList.DecodeTabListPayload | src/remote_wire.rs:580-653 | the strict decoder's loop, its four errors included |
| TabList.DecodeRemoteTabList | src/client_gui.rs:2604-2654 | the client's lenient decoder's loop |
| TabList.LenientExactly | src/client_gui.rs:2604-2654 | on any bytes the lenient decoder returns a list if and only if the strict one accepts some prefix with that list |
| TabList.StrictPrefixUnique | src/remote_wire.rs:580-653 | at most one prefix of a payload is accepted by the strict decoder |
| TabList.ClippedRoundTrip | src/remote_wire.rs:1041-1046 | both decoders return the list with its strings cut at 65535 bytes, or fail if a cut falls inside a character |
| TabList.TabListRoundTripExactly | src/remote_wire.rs:793-811 | a list of UTF-8 strings decodes to itself if and only if every string fits 65535 bytes and the count 32 bits |
| TabList.DecodedListsRoundTrip | src/client_gui.rs:2604-2654 | a list decoded from any bytes survives being encoded again |
| Layout.LayoutSplits | src/layout.rs:209-296 | the loops of the main layouts and the comprehensions of the others give the specified split of every pane |
| Layout.RebuildFromPanes | src/splits.rs:301-331 | splitting the newest leaf again and again builds the right-leaning tree of all panes with clamped ratios |
| Layout.ManualHalves | src/layout.rs:216-224 | a manual layout without ratios of its own stacks the panes in one line, each half of what the border leaves of the one above, the last two alike |
| Layout.MissingSplitsAreManual | src/splits.rs:301-331 | panes for which no split was given are split off as in a manual layout |
| Layout.SplitIsLocal | src/splits.rs:501-533 | splitting a pane divides its frame and leaves pane, order and frame of all others |
| Layout.PanesNeverOverlap | src/splits.rs:652-705 | in any tree and any frame, however small, no point is in two panes or in a pane outside the frame |
| Layout.PanesAndDividersTile | src/splits.rs:652-705 | every point of a roomy frame is in exactly one pane or divider |
| Layout.PanesTile | src/splits.rs:676-705 | without a border the panes alone tile the frame |
| Layout.AreaConserved | src/splits.rs:676-705 | the areas of panes and dividers add up to the frame's, for every tree, ratio and border |
| Layout.EvenAreasExactly | src/layout.rs:225-245 | if there were no border, even and tiled layouts would give every pane 1/n of the area if and only if there are at most ten panes |
| Layout.MainAreasExactly | src/layout.rs:246-277 | if there were no border, main layouts would give the first pane 0.6, and each other pane 0.4/(n-1) if and only if there are at most ten others |
| Layout.SpineLinesUp | src/tabs.rs:195-218 | panes split one way stand in one line from edge to edge, a border apart, at full cross size |
| Layout.EvenExtentsExactly | src/splits.rs:673-705 | how much each pane of an even layout loses to borders; they are equal if and only if there are at most two, or no border and at most ten |
| Layout.ShippedEvenExactly | src/splits.rs:673-705 | with the border as shipped, the panes of an even layout are equal if and only if there are at most two |
| Layout.MainSharesExactly | src/splits.rs:673-705 | with any border, the first pane of a main layout takes six tenths of what the border leaves; the others stand in line across the rest, equal if and only if there are at most two, or no border and at most ten |
| Layout.TiledSharesExactly | src/splits.rs:673-705 | with any border, each tile of up to ten is smaller than the one before by the border along that one's split side, save the last; all are of one size if and only if there are at most two, or no border and at most ten |
| ConfigIncludes.Loader.LoadWithIncludes | src/config.rs:315-346 | the recursive loader sharing its visited set returns the rendered expansion, or the unreadable file; it terminates on cyclic graphs |
| ConfigIncludes.Loader.LoadLines | src/config.rs:326-344 | the loop over a file's lines, with the newline added after an include that leaves no line end |
| ConfigIncludes.EveryLineEnds | src/config.rs:326-344 | after any line, what a file has expanded to ends in a newline |
| ConfigIncludes.BlanksBounded | src/config.rs:326-344 | newlines are made up at most once for each newly visited file that begins with an include |
| ConfigIncludes.LoadsReachableExactly | src/config.rs:315-346 | loading succeeds if and only if every reachable file is readable, has then visited exactly the reachable files, and on failure names a reachable unreadable one |
| ConfigIncludes.LinesOnceInOrder | src/config.rs:315-346 | from any visited set, the ordinary lines of each newly visited file come out once each and in order, and no others |
| ConfigIncludes.ReachableLinesOnce | src/config.rs:315-346 | from the root: of each reachable file every ordinary line exactly once and in order, of other files none |
| IncludeOnce.ExpandIsFirstCopies | src/config.rs:315-346 | from any state of the search, the expansion is plain textual inclusion less what finished files contributed |
| IncludeOnce.ExpansionIsInlineOnce | src/config.rs:315-346 | the expansion is plain textual inclusion, guarded only against cycles, with every line kept at its first copy |

## Left out

- QUIC, TLS, Unix sockets, SSH bootstrap, process launching and thread start-up: I/O over libraries outside the repository.
- The iced user interface, input methods, key and mouse translation, status bar and divider hit testing.
- Terminal emulation, PTYs and backend polling: wrappers over a VT library.
- JSON encoding of runtime states, appearances and actions: any pair of partial parsers, and payloads are bytes.
- Row-range requests: the server's pane row caches, and the mobile client's rows fetched and composed from its cache when scrolled back.
- The iOS client beyond `MobileClient`, `MobileReplication` and `RowCache`: its views, other decoders, requests for refreshes, and what it tells the user. Its cells keep the wide byte as it is; here it is read as zero or not.
- MobileReplication.MobilePanesAgree: updates for the tab in view and visible panes, of grids that are not empty, before the revision wraps; a pane is hidden on the client when the server renews its view. The mirroring of legacy screens into panes is left out.
- MobileReplication.MobileEndToEnd: for the queue as it is, before batching; deltas a batch drops are judged by `BatchScreen` as the desktop client draws them.
- MobileClient.MobileDeltaRefines: deltas that scroll are left out, which the server never sends.
- `runtime_server`: not modelled as such. What it asks of the client record is given as operations, in its own order for attaching, typing and publishing a tab; otherwise in any order, under `Replication.Disciplined` or under nothing but one publisher thread.
- Fields that never reach a cached or shown grid: client action acknowledgements, last rendered revisions, scroll offsets, copy mode, search, tab titles, working directory, scrollbar.
- A snapshot's default colour table and hyperlink targets; the raw cursor style is kept instead of its enumeration.
- The gap between the second lock of a publish and its send: with one publisher thread only frames of other kinds fall into it, so both are one step.
- Capacity hints from untrusted counts, and out-of-memory behaviour.
- Wall-clock time, profiling, tracing and diagnostics: the idle sweep takes its clock as an argument.
- Writing a batch to the socket and stopping at the first write error (src/remote_batcher.rs:42-79).
- The client event coalescer that only exists in test builds (src/client_gui.rs:1997-2140).
- Splitting file contents into lines, trimming, quotes and joining of include paths: lines come classified, with targets joined, and `canonicalize` is any function of paths.
- Focus, resizing, rebalancing, rotation and removal in split trees; frame sizes in device pixels.
- Manual layout files, key bindings, keymaps, command prompt and command line: single-branch lookups.
- Layout.EvenAreasExactly: ratios and lengths are exact reals; floating-point rounding is not modelled. The same holds for every member of `Layout`.
- Replication.EndToEnd: for the local lane only, which is neither batched nor coalesced, with frames whose payload fits 32 bits (`FailingRuns.UsualGridsAreShort`), and for runs whose every step is disciplined. Of undisciplined publishers `PublisherRuns.AgreementExactly` states exactly which steps keep the agreement.
- Replication.EndToEndExact: for clients with the compiled-in colours; `DeltaRefinement.ThemeExactness` says what other themes change.
- PublisherRuns.AgreementExactly: one publisher thread, as in the server, and payloads that fit 32 bits; screen publishes to local clients only; colours are left aside.
- FailingRuns.SharedBroadcastRun: one passive pane beside the focused one, as in the other two runs; grids whose frames fit 32 bits.
- UI snapshots fetched over the control socket: events of `RowStamps`, not steps of `Replication`, since a client only fetches them without a stream.
- PaneOrder.BatchPaneOrderExactly: for updates that differ from each other; equal ones cannot be told apart in the output. `PaneOrder.PaneOrderExactly` needs no such condition.
- BatchReplication.BatchedDrainExactly: deltas do not scroll, as the server never asks for it, and revision stamps are not part of the picture.
- BatchReplication.FootingKept: runtime states and appearances that decode; one that does not may replace one that does.
- ControlDedup.DedupRefinesAlwaysSend: payloads under 2^32 bytes, since longer ones cannot be framed; for tab lists only runs without replies.
- RowStamps.StampsAreSound: no scroll is applied in between, which the server never asks for.
- BatchScreen.PairExactly: revision stamps are not part of the picture, and deltas do not scroll.
- TabList.ClippedRoundTrip: lists of fewer than 2^32 tabs; `TabList.TabListRoundTripExactly` covers all.
