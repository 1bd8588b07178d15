# Verification of the terminal application's protocols and kernels

A Dafny 4.11 model of the stateful and arithmetic parts of a terminal application, with proofs. Run
`dafny verify dfyconfig.toml`.

| files | what they model |
|---|---|
| `ClipboardPaste*.dfy` | the clipboard image paste controller: a bounded queue of requests in eight states, one upload slot, per-session input epochs, tombstones, expiry and a revision counter; the stateful class, its invariant over every run, the loop that drains background results into it, application runs as controller runs (`Folding.dfy`), what keeps uploads going or stops them, and what each event and each drain does to the requests it concerns |
| `Atlas*.dfy`, `Pixels.dfy` | the incremental terminal rasteriser: a retained pixel array repainted row by row, against a from-scratch repaint, and what each pixel of that shows |
| `ImageDrawRect.dfy`, `Selections.dfy`, `SemanticOverlay.dfy`, `FrameRows.dfy`, `FramePixels.dfy`, `FrameReplay.dfy` | the renderer-facing frame: image clipping, selections, semantic colour overlays, row hashes and dirty rows, the pixels they stand for, and when redrawing the dirty rows is enough |
| `TerminalPresenter.dfy` | the presenter that joins the two: it frames, restyles and renders each surface |
| `SyncTimestamp.dfy`, `SshModalTests.dfy` | ordering and freshness: zero-padded timestamps compared as strings, and connection tests of which only the newest may speak |
| `WindowsRelease*.dfy` | the release script as a crash-tolerant bump, commit, build, tag protocol over a git repository |
| `LimitedWriter.dfy`, `RecentAssets.dfy`, `WindowGeometry.dfy` | the size-limited seekable writer, the capped list of recent assets, saved-window placement |

Where the source updates state in place, the model is a class whose methods are proved equal to
transition functions on values; the run properties are lemmas about those functions. A run is a sequence
of states related step by step, for any events in any order and of any length.

## What the code does not promise

Each of these is stated as a lemma with the exact condition or a concrete witness.

- **An upload orphaned by closing its session can block the queue for good.** `remove_session` turns the
  uploading request into a tombstone and leaves the slot taken. The drain loop drops a successful result
  whose request is no longer uploading, before the controller could free the slot, so only a failed
  result frees it (`SuccessFreesSlotIffUploading`, `OrphanBlocksEveryUpload`; `QueueWedges` is such a run from the start). A second removal also drops
  the tombstone, so an active id may have no request at all (`SecondRemovalDropsTombstone`).
- **The revision is a cache key up to wrap-around.** It is sound for fewer than 2^64 bumps between two
  looks, and not for exactly 2^64 (`RevisionIsSoundCacheKey`, `RevisionWrapHidesAChange`). Likewise the
  input epoch decides insertion by the number of inputs modulo 2^64 (`CompletionMatchesInput`).
- **A surface with no rows keeps old pixels** unless its size or background changed
  (`RenderWithoutRows`, `RowlessFrameIsStale`).
- **After a resize the dirty rows may not be enough.** Row hashes leave the grid's size out, which the
  background gradient, the frame's width and image clipping depend on. Between grids of m by c and n by d
  cells, redrawing the dirty rows is enough for every pair of frames without images if and only if the
  grids share no row, or the new one is no wider and the gradients over the two heights agree on the lines
  both have (`ResizeReplaysIff`; never for the look of `ResizeExample` when the height changes). Frame by
  frame, with images too: `ReplaysIffSizesAgree` and `ReplaysIffCleanPixelsStay`.
- **A recorded timestamp may have no successor that sorts after it.** The next change sorts after
  everything recorded if and only if `CanAdvance` (`NextIsNewest`); among 20-digit timestamps that fails
  for the last one only (`NextTimestampIsNewest`).
- **Connection test ids saturate.** With 2^64 tests started the last two share an id and the older one's
  result is believed (`SaturatedIdsCollide`, a whole run); below that only the newest is.
- **The release script's text edits can miss.** They take the first matching line, and a retry after a
  failed build reaches the same repository as an undisturbed run if and only if they hit the package's
  own version lines (`RetriesConvergeExactly`, `RetryConvergesIffEditsHit`). A commented version line and
  a registry package of the same name make them miss (`CommentedVersionIsMissed`,
  `ShadowedLockEntryIsMissed`).
- **A saved window comes back exactly if and only if the first monitor it touches contains it**, which
  separate monitors guarantee and overlapping ones do not (`RoundTripIffFirstTouchedContains`,
  `OverlappingMonitorsMoveTheWindow`). Beyond 32-bit edges startup can panic or lose the window's place
  (`ResolvedExactly`, `WrappedEdgesMoveTheWindow`).
- **An automatic insertion is itself terminal input**, so every other image of that session registered
  before it goes stale (`OneInsertionStalesTheRest`).

## Model

| member | source | states |
|---|---|---|
| ClipboardPasteInvariants.StepKeepsInv | src/app/clipboard_image_paste.rs:115-636 | every controller operation keeps the invariant: unique ids, finished requests ahead of the slot holder, the uploading or tombstone request is the active one, ownership as the state demands, at most eight retained |
| ClipboardPasteInvariants.InvariantConsequences | src/app/clipboard_image_paste.rs:119-151 | in every reachable state at most nine entries, at most one request uploading, awaiting insertion or tombstone, stale and failed requests always shown, and a stale request's path always offered in its own session |
| ClipboardPasteInvariants.SlotOrderBoundsTombstones | src/app/clipboard_image_paste.rs:555-560 | the slot order alone bounds tombstones: the queue is at most one longer than the retained count |
| ClipboardPasteInvariants.ScanFindsOwner | src/app/clipboard_image_paste.rs:202-263 | the upload scan's two missing-data branches cannot be taken, and everything ahead of what it finds is finished |
| ClipboardPasteInvariants.FreeSlotStartsOldestUnfinished | src/app/clipboard_image_paste.rs:202-263 | with the slot free, the first queued request starts if and only if nothing earlier is still preparing or awaiting insertion, and with its own runtime, bytes and total |
| ClipboardPasteInvariants.StepEvolves | src/app/clipboard_image_paste.rs:115-636 | every event keeps, drops or advances requests in order and only a successful registration adds one, at the end |
| ClipboardPasteInvariants.PointEventIsPointStep | src/app/clipboard_image_paste.rs:159-507 | an event about one request changes nothing but that request and the slot, bumps the revision once if it changes anything, and moves the slot only as the request's new state demands |
| ClipboardPasteInvariants.SlotStep | src/app/clipboard_image_paste.rs:302-445 | no operation frees the slot but a success, a failure or an invalid connection reported for the active upload |
| ClipboardPasteEffects.NamedEventMeans | src/app/clipboard_image_paste.rs:159-507 | every event about a request takes effect exactly in the states it concerns: the request becomes what the table says, all other requests and epochs stay, the slot moves as the table says and the revision counts one change; in all other states nothing changes |
| ClipboardPasteEffects.PreparationFailedMeans | src/app/clipboard_image_paste.rs:190-200 | a failed preparation turns a preparing request, and no other, into a shown error with the bounded detail and without runtime, bytes, preview and path |
| ClipboardPasteEffects.PreparedMeans | src/app/clipboard_image_paste.rs:159-188 | a preparing request, and no other, takes the encoded image, its size as the total, and the preview unless hidden |
| ClipboardPasteEffects.ProgressMeans | src/app/clipboard_image_paste.rs:265-300 | a sample moves the active upload exactly when its total matches and it does not fall back, and is reported only when it changes something |
| ClipboardPasteEffects.AverageIsRate | src/app/clipboard_image_paste.rs:639-651 | the rate is bytes per second in whole bytes, zero without bytes or time, as wide as 64 bits allow |
| ClipboardPasteEffects.SucceededMeans | src/app/clipboard_image_paste.rs:302-350 | a success of an uploading request frees the slot and hands out its own path if its session had no input, else keeps it as stale; a tombstone goes |
| ClipboardPasteEffects.FailedMeans | src/app/clipboard_image_paste.rs:378-399 | a failure turns the uploading request into an error and frees the slot; a tombstone goes |
| ClipboardPasteEffects.InsertedMeans | src/app/clipboard_image_paste.rs:401-419 | an insertion shows the success for 3.2 seconds and drops path and preview |
| ClipboardPasteEffects.ConnectionInvalidMeans | src/app/clipboard_image_paste.rs:421-445 | a lost connection fails every unfinished or stale request, freeing the slot it held, and leaves successes and errors |
| ClipboardPasteEffects.CopyFailedMeans | src/app/clipboard_image_paste.rs:473-483 | a failed copy changes the detail of a stale request and nothing else |
| ClipboardPasteEffects.DismissMeans | src/app/clipboard_image_paste.rs:485-507 | dismissing removes a finished request, hides an unfinished one and refuses a tombstone |
| ClipboardPasteEffects.UnknownEventMeans | src/app/clipboard_image_paste.rs:302-320 | a report about an unknown request changes nothing, except that the end of an upload that lost its request frees the slot |
| ClipboardPasteEffects.TakeNextMeans | src/app/clipboard_image_paste.rs:202-263 | the free slot goes to the one queued request that only finished ones precede, with a job of its own runtime, bytes and size; else nothing happens |
| ClipboardPasteEffects.RegisterMeans | src/app/clipboard_image_paste.rs:119-151 | a paste is registered exactly while fewer than eight are retained, at the back, with its session's epoch of that moment |
| ClipboardPasteEffects.ExpireMeans | src/app/clipboard_image_paste.rs:509-522 | expiry removes exactly the successes whose time has come, and reports whether there were any |
| ClipboardPasteEffects.RemovalMeans | src/app/clipboard_image_paste.rs:524-553 | closing a session drops its epoch and requests in place, except that its active upload becomes a tombstone |
| ClipboardPasteEffects.ItemsMean | src/app/clipboard_image_paste.rs:574-614 | a session's items are its requests that are neither hidden nor tombstones, in order, with their status; pasting and copying are offered exactly when the path can be taken |
| ClipboardPasteEffects.PasteActionExactly | src/app/clipboard_image_paste.rs:447-471 | a path can be taken exactly for a stale request of the session in view, and it is that request's own |
| ClipboardPasteRuns.RunsExistAndAreUnique | src/app/clipboard_image_paste.rs:104-113 | every sequence of events has exactly one run, so the run theorems speak about all of them |
| ClipboardPasteRuns.RunsKeepInvariant | src/app/clipboard_image_paste.rs:115-636 | the invariant and the registration order of the queue hold at every moment of every run |
| ClipboardPasteRuns.UploadsStartInRegistrationOrder | src/app/clipboard_image_paste.rs:202-263 | over any run uploads start in the order of registration, each request at most once |
| ClipboardPasteRuns.UploadsNeverOverlap | src/app/clipboard_image_paste.rs:202-227 | between two upload starts the first was reported finished, failed or invalid; removing its session is not enough |
| ClipboardPasteRuns.RequestsOnlyMoveUp | src/app/clipboard_image_paste.rs:65-76 | over any stretch of a run a request's state only moves up an acyclic rank, its bytes never decrease, its total and identity stay |
| ClipboardPasteRuns.EpochCountsInputs | src/app/clipboard_image_paste.rs:153-157 | while a request lives, its session's epoch is the captured one plus the inputs since registration, modulo 2^64 |
| ClipboardPasteRuns.CompletionMatchesInput | src/app/clipboard_image_paste.rs:302-350 | a completed upload is inserted automatically exactly when no terminal input (modulo 2^64) reached its session since registration, with its own path and binding, and is stale otherwise |
| ClipboardPasteRuns.CompletedAtMostOnce | src/app/clipboard_image_paste.rs:302-350 | each request is inserted or declared stale at most once in its life |
| ClipboardPasteRuns.RemovedSessionNeverCompletes | src/app/clipboard_image_paste.rs:524-553 | a request whose session was removed is never inserted nor declared stale |
| ClipboardPasteRuns.RevisionCountsBumps | src/app/clipboard_image_paste.rs:634-636 | the revision moves by exactly the number of changes, modulo 2^64, and stands still only while the queue does |
| ClipboardPasteRuns.RevisionIsSoundCacheKey | src/app/bootstrap.rs:6729 | two moments of a run with the same revision, fewer than 2^64 changes apart, show identical items for every session |
| ClipboardPasteRuns.RevisionWrapHidesAChange | src/app/clipboard_image_paste.rs:634-636 | the bound is exact: a run in which 2^64 changes hide a new item behind an equal revision |
| ClipboardPasteController.ClipboardImagePasteController.constructor | src/app/clipboard_image_paste.rs:103-113 | a new controller is the initial state and satisfies the invariant |
| ClipboardPasteController.ClipboardImagePasteController.BumpRevision | src/app/clipboard_image_paste.rs:634-636 | the wrapping increment of the revision |
| ClipboardPasteController.ClipboardImagePasteController.RequestIndex | src/app/clipboard_image_paste.rs:616-620 | the position of the first request with the id, or none |
| ClipboardPasteController.ClipboardImagePasteController.RetainedRequestCount | src/app/clipboard_image_paste.rs:555-560 | the number of requests that are not tombstones |
| ClipboardPasteController.ClipboardImagePasteController.Register | src/app/clipboard_image_paste.rs:119-151 | refuses a full queue unchanged, else appends a preparing request with the session's current epoch |
| ClipboardPasteController.ClipboardImagePasteController.NoteTerminalInput | src/app/clipboard_image_paste.rs:153-157 | increments exactly one session's epoch, wrapping, and leaves queue and revision alone |
| ClipboardPasteController.ClipboardImagePasteController.MarkPrepared | src/app/clipboard_image_paste.rs:159-188 | only a preparing request takes the encoded image, whose size becomes its total |
| ClipboardPasteController.ClipboardImagePasteController.MarkPreparationFailed | src/app/clipboard_image_paste.rs:190-200 | only a preparing request fails; its resources are dropped |
| ClipboardPasteController.ClipboardImagePasteController.FindQueued | src/app/clipboard_image_paste.rs:202-227 | the scan's answer: the first queued request that only finished ones precede |
| ClipboardPasteController.ClipboardImagePasteController.TakeNextUpload | src/app/clipboard_image_paste.rs:202-263 | takes the slot, runtime and bytes of the request the scan finds, and nothing when the slot is taken |
| ClipboardPasteController.ClipboardImagePasteController.MarkUploadProgress | src/app/clipboard_image_paste.rs:265-300 | accepts only samples of the active upload with its total and no regression, clamped to the total |
| ClipboardPasteController.ClipboardImagePasteController.MarkUploadSucceeded | src/app/clipboard_image_paste.rs:302-350 | frees the slot and moves the request by its epoch; a tombstone is dropped |
| ClipboardPasteController.ClipboardImagePasteController.MarkUploadFailed | src/app/clipboard_image_paste.rs:378-399 | frees the slot and fails the uploading request; a tombstone is dropped |
| ClipboardPasteController.ClipboardImagePasteController.MarkInserted | src/app/clipboard_image_paste.rs:401-419 | an awaiting or stale request becomes a success with an expiry |
| ClipboardPasteController.ClipboardImagePasteController.MarkConnectionInvalid | src/app/clipboard_image_paste.rs:421-445 | fails any unfinished request, freeing its slot; a tombstone is dropped |
| ClipboardPasteController.ClipboardImagePasteController.MarkCopyFailed | src/app/clipboard_image_paste.rs:473-483 | only a stale request with a path takes the bounded copy error |
| ClipboardPasteController.ClipboardImagePasteController.Dismiss | src/app/clipboard_image_paste.rs:485-507 | finished requests leave the queue, unfinished ones are hidden, tombstones refuse |
| ClipboardPasteController.ClipboardImagePasteController.ExpireSuccess | src/app/clipboard_image_paste.rs:509-522 | drops exactly the successes whose time has come |
| ClipboardPasteController.ClipboardImagePasteController.RemoveSession | src/app/clipboard_image_paste.rs:524-553 | drops the session's epoch and requests, except that the active upload becomes a tombstone |
| ClipboardPasteController.ClipboardImagePasteController.VisibleItems | src/app/clipboard_image_paste.rs:574-614 | the items shown for a session, in queue order |
| ClipboardPasteDrain.Drain | src/app/bootstrap/workspace_terminal.rs:1543-1682 | one drain: all results fed in order, each with the session manager's answers and the clock of its own moment, lost stale paths invalidated, successes expired, the next upload taken |
| ClipboardPasteDrain.HandleUploaded | src/app/bootstrap/workspace_terminal.rs:1567-1640 | what a successful result does: dropped unless uploading, invalidated if the connection changed, else inserted or retained |
| ClipboardPasteDrain.CollectStaleContexts | src/app/clipboard_image_paste.rs:366-376 | the binding contexts of exactly the stale requests, in order |
| ClipboardPasteDrain.SuccessFreesSlotIffUploading | src/app/bootstrap/workspace_terminal.rs:1567-1580 | a success reported for the active upload frees the slot if and only if its request is still uploading |
| ClipboardPasteDrain.FailureFreesSlot | src/app/clipboard_image_paste.rs:378-399 | a failure reported for the active upload always frees the slot |
| ClipboardPasteDrain.RemovalOrphansActiveUpload | src/app/clipboard_image_paste.rs:524-553 | removing the active upload's session leaves the slot held by a tombstone |
| ClipboardPasteDrain.SecondRemovalDropsTombstone | src/app/clipboard_image_paste.rs:524-553 | removing it again leaves the slot held by no request at all |
| ClipboardPasteDrain.OrphanSurvivesDrain | src/app/bootstrap/workspace_terminal.rs:1543-1682 | a drain that brings no failure for an orphaned upload leaves it holding the slot and starts nothing |
| ClipboardPasteDrain.OrphanBlocksEveryUpload | src/app/bootstrap/workspace_terminal.rs:1543-1682 | from any moment of a run on, without a failure report for the orphan, no upload ever starts again |
| ClipboardPasteApp.AppRunsAreRuns | src/app/bootstrap/workspace_terminal.rs:1543-1682 | every application run of drains and user events is a run of the controller, moment by moment, so all run theorems apply to it |
| ClipboardPasteApp.StepIsEvents | src/app/bootstrap/workspace_terminal.rs:1543-1682 | one drain does exactly what its sequence of controller events does |
| ClipboardPasteApp.OneInsertionStalesTheRest | src/app/bootstrap/workspace_terminal.rs:1588-1600 | over any application run, once an image was inserted automatically no image of the same session registered before that is inserted automatically any more (short of 2^64 inputs); it is kept as stale |
| ClipboardPasteProgress.NothingAwaitsBetweenSteps | src/app/bootstrap/workspace_terminal.rs:1567-1640 | over any application run no request awaits insertion between two steps: each automatic insertion is settled inside the drain that brought the upload's result |
| ClipboardPasteProgress.DrainLeavesOnlyBlocked | src/app/bootstrap/workspace_terminal.rs:1643-1682 | after every drain of an application run the slot is taken, or each queued request has an earlier one that is still being prepared: no upload that could start is left unstarted |
| ClipboardPasteProgress.QueueWedges | src/app/bootstrap/workspace_terminal.rs:1567-1580 | a run from the initial state (two images, the first one's session closed while it uploads, its success reported) after which the second is queued and ready, and nothing is ever uploaded again unless the first is reported as failed |
| ClipboardPasteProgress.EventKeepsSettled | src/app/clipboard_image_paste.rs:115-636 | no event but a successful upload makes a request await insertion |
| ClipboardPasteOutcomes.UploadedMeans | src/app/bootstrap/workspace_terminal.rs:1567-1640 | a reported success takes effect on an uploading request only: it fails if its connection is gone, is stale if its session had input, else is inserted or failed as the paste goes, which counts as one input of the session |
| ClipboardPasteOutcomes.AllSwept | src/app/bootstrap/workspace_terminal.rs:1668-1677 | exactly the stale requests whose connection is gone fail, with the message for that |
| ClipboardPasteOutcomes.DrainEnds | src/app/bootstrap/workspace_terminal.rs:1668-1681 | after its results a drain fails the stale requests whose connection is gone, drops the successes that are due, and gives a free slot to the request that only finished ones precede |
| ClipboardPasteOutcomes.NextStartsInDrain | src/app/bootstrap/workspace_terminal.rs:1678-1681 | a request that the fed results leave first in line starts uploading in the same drain |
| ClipboardPasteOutcomes.FailedHeadLetsNextStart | src/app/clipboard_image_paste.rs:965-980 | when the head's preparation fails, the first queued request behind it starts in the same drain |
| AtlasIncremental.RetainedFrameIsFromScratch | src/app/terminal_atlas.rs:289-447 | after any sequence of renders, scale changes and cache clears that ends in a render of at least one row, every retained pixel equals a from-scratch repaint of that surface, selection and overlay |
| AtlasIncremental.RenderIsFromScratch | src/app/terminal_atlas.rs:314-447 | from any state satisfying the invariant one render gives the from-scratch picture |
| AtlasIncremental.RenderKeepsInv | src/app/terminal_atlas.rs:314-447 | a render keeps the invariant: every row whose hash is remembered shows that row's paint, and shares the remembered background |
| AtlasIncremental.SetScaleKeepsInv | src/app/terminal_atlas.rs:299-308 | a scale change keeps the invariant, metrics and underline included |
| AtlasIncremental.ScaleChangeMeans | src/app/terminal_atlas.rs:299-308 | within a hundredth of the current scale a request changes nothing; else the sanitised scale is taken, every length is its own logical length scaled to the nearest pixel, and nothing retained stays |
| AtlasIncremental.CleanRowIsCurrent | src/app/terminal_atlas.rs:366-404 | a row that is not repainted already shows what repainting would give |
| AtlasIncremental.RepaintsOnlyWhatChanged | src/app/terminal_atlas.rs:320-404 | from one render to the next a row is repainted exactly if the size changed, images are or were placed or their resources changed, or the row is new or what its painters read has changed |
| AtlasIncremental.RenderWithoutRows | src/app/terminal_atlas.rs:320-365 | a surface without rows shows the from-scratch frame if and only if its size or background changed or every kept pixel already is the bare gradient; otherwise nothing is repainted |
| AtlasIncremental.RowlessFrameIsStale | src/app/terminal_atlas.rs:320-365 | a concrete run whose rowless frame differs from a from-scratch repaint |
| AtlasPaint.BackgroundsActOnOwnBand | src/app/terminal_atlas.rs:449-518 | painting all backgrounds changes each pixel as the one row that owns its band does |
| AtlasPaint.ForegroundsActOnOwnBand | src/app/terminal_atlas.rs:520-602 | painting all text changes each pixel as the one row that owns its band does |
| AtlasPaint.RowBackgroundOverwrites | src/app/terminal_atlas.rs:449-518 | a row's background does not depend on what the band held before |
| AtlasPixelLaws.GroundShows | src/app/terminal_atlas.rs:449-518 | where no text and no image reaches, a pixel shows the last cell background over its column, the highlight if selected, else the gradient |
| AtlasPixelLaws.TextShows | src/app/terminal_atlas.rs:520-602 | the last cell that touches a pixel shows there: its underline in the text colour, its glyph mixed in by alpha over underline or ground, an opaque glyph pixel whatever is behind it |
| AtlasPixelLaws.UpperImageShows | src/app/terminal_atlas.rs:604-641 | an opaque image drawn last in the upper layer hides everything, text included |
| AtlasPixelLaws.SoleUpperImageShows | src/app/terminal_atlas.rs:604-641 | a single upper image is mixed in over what the frame shows without it |
| AtlasPixelLaws.LowerImageShows | src/app/terminal_atlas.rs:604-641 | behind the text, the last opaque lower image hides the ground and a single one is mixed into it |
| AtlasPixelLaws.SelectedTextIsReadable | src/app/terminal_atlas.rs:1097-1132 | selected text takes the candidate colour of highest contrast to its highlighted background, the latest of equals, and hidden text stays hidden |
| AtlasPixelLaws.LastsExist | src/app/terminal_atlas.rs:449-602 | every pixel of every row is covered by these laws: there is a last cell background and a last touching cell, or none |
| AtlasPaint.SampleIsNearest | src/app/terminal_atlas.rs:1226-1292 | the sampled texel holds the centre of the destination pixel, up to one texture step |
| AtlasPaint.LookUpIsLast | src/app/terminal_atlas.rs:604-641 | a placement shows the last resource with its hash |
| AtlasPaint.ScaledMetricsAreNearest | src/app/terminal_atlas.rs:963-969 | each raster length is its own logical length scaled to the nearest whole pixel, at least one |
| AtlasPaint.UnderlineIsNearest | src/app/terminal_atlas.rs:761-763 | the underline is as thick as the scale, to the nearest whole pixel, at least one |
| AtlasPaint.SortPlacementsSorts | src/app/terminal_atlas.rs:604-641 | image layers are drawn in z-index then protocol order, each placement as often as it occurs |
| AtlasPaint.SortIsStable | src/app/terminal_atlas.rs:619 | placements of equal z-index and protocol order are drawn in the order they are listed |
| AtlasPaint.SortThenFilter | src/app/terminal_atlas.rs:614-619 | dropping placements before sorting or after it comes to the same |
| AtlasPaint.SourceIndexMonotone | src/app/terminal_atlas.rs:1226-1292 | the sampled source position never decreases along the destination |
| AtlasPaint.SourceIndex | src/app/terminal_atlas.rs:1226-1292 | the sampled source position always lies inside the resource |
| AtlasPaint.WholeImageIsCopied | src/app/terminal_atlas.rs:1226-1292 | an image shown whole at its own size is copied pixel for pixel while twice its size is at most the texture scale |
| AtlasPaint.UnderlineFitsCell | src/app/terminal_atlas.rs:761-763 | at any positive scale the underline fits its cell, so rows own disjoint bands |
| Pixels.Mix | src/app/terminal_atlas.rs:1076-1084 | a blended channel lies between its two inputs and equals one of them at alpha 0 and 255 |
| Pixels.MixIsMean | src/app/terminal_atlas.rs:1076-1084 | it is the alpha-weighted mean of the two, rounded down |
| Pixels.Rgba8Bytes | src/app/terminal_atlas.rs:1049-1056 | a colour's four bytes are alpha, red, green and blue, high to low |
| Pixels.FlatIndex | src/app/terminal_atlas.rs:1059-1074 | a pixel of the viewport has its own index in the flat buffer, and the index determines column and row |
| AtlasBlits.FillViewportBackgroundSpan | src/app/terminal_atlas.rs:1001-1018 | in place: every pixel of the span takes its row's gradient colour, all others stay |
| AtlasBlits.FillRect | src/app/terminal_atlas.rs:1059-1074 | in place: exactly the clipped rectangle takes the colour |
| AtlasBlits.BlitSprite | src/app/terminal_atlas.rs:1174-1224 | in place: exactly the visible pixels of the clipped sprite are blended, both sprite kinds |
| AtlasBlits.BlitTerminalImage | src/app/terminal_atlas.rs:1226-1292 | in place: exactly the visible pixels of the clipped image are blended with the sampled source |
| AtlasRenderer.TerminalAtlasRenderer.constructor | src/app/terminal_atlas.rs:248-271 | a new renderer has an empty frame and satisfies the invariant |
| AtlasRenderer.TerminalAtlasRenderer.RenderWithSelection | src/app/terminal_atlas.rs:314-447 | the in-place render equals the value-level render, keeps the invariant, and reports exactly the dirty rows |
| AtlasRenderer.TerminalAtlasRenderer.SetRasterScale | src/app/terminal_atlas.rs:299-308 | changes below 0.01 are ignored, others rescale the metrics and forget everything retained |
| AtlasRenderer.TerminalAtlasRenderer.ClearTransientCaches | src/app/terminal_atlas.rs:289-297 | forgets frame, hashes, signatures and sprites, and keeps scale and metrics |
| AtlasRenderer.TerminalAtlasRenderer.EnsureClusterSprite | src/app/terminal_atlas.rs:643-656 | returns the rasteriser's sprite for the cluster whether or not it was cached, and keeps the cache sound |
| AtlasRenderer.TerminalAtlasRenderer.RenderRowBackground | src/app/terminal_atlas.rs:449-518 | paints one row's background on every pixel as its one-pixel function says |
| AtlasRenderer.TerminalAtlasRenderer.RenderRowForeground | src/app/terminal_atlas.rs:520-602 | paints one row's underlines and sprites on every pixel as its one-pixel function says |
| AtlasRenderer.TerminalAtlasRenderer.RenderTerminalImages | src/app/terminal_atlas.rs:604-641 | paints one image layer on every pixel as its one-pixel function says |
| ImageDrawRect.ClipAxisExact | src/app/terminal_model.rs:54-136 | on one axis a placement is drawn if and only if it starts inside the viewport, covers a pixel, shows a non-empty slice and fits the machine words; the texture slice is then proportional to the visible part, rounded by less than one pixel |
| ImageDrawRect.DrawRectExact | src/app/terminal_model.rs:54-136 | the rectangle exists if and only if both axes are drawable; on each axis it runs from the placement's own padded edge to its far edge or the viewport's, with the texture from its own start and in proportion to the visible part |
| ImageDrawRect.ClipEdgesExact | src/app/terminal_model.rs:85-125 | clipping removes the proportional share of the texture, the final empty-texture test never fires |
| ImageDrawRect.UnclippedKeepsUv | src/app/terminal_model.rs:54-136 | a placement wholly inside the viewport keeps its own texture coordinates |
| ImageDrawRect.DrawsOnlyItsRows | src/app/terminal_model.rs:770-809 | an image paints only inside rows it spans, which are the rows whose hash counts it |
| ImageDrawRect.DrawsOnlyItsColumns | src/app/terminal_model.rs:54-136 | an image paints only inside columns it spans |
| Selections.RowBoundsAreTheInterval | src/app/terminal_model.rs:236-256 | a cell of the grid is inside its row's bounds exactly when it lies in the interval from start to end in reading order |
| Selections.RowBoundsAreTight | src/app/terminal_model.rs:236-256 | a row has bounds exactly when some cell of it is selected, and they are tight |
| Selections.AtlasBoundsAgree | src/app/terminal_atlas.rs:90-115 | the atlas's inclusive bounds name the same cells |
| Selections.CellSelectedIffAColumnIs | src/app/terminal_atlas.rs:1092-1095 | a wide cell is painted selected exactly when one of its columns is |
| Selections.MergeIsLeastUpperBound | src/app/terminal_model.rs:452-459 | the merge is the least interval containing both selections |
| Selections.MergeIsASemilattice | src/app/terminal_model.rs:452-459 | merging is commutative, associative and idempotent |
| Selections.NewSelection | src/app/terminal_model.rs:217-234 | the two given endpoints, the earlier one as the start |
| SemanticOverlay.OverlayMeaning | src/app/terminal_model.rs:588-674 | default-coloured cells take the colour of the last overlapping span of highest priority, explicit colours survive, a search match overrides the background with a blend of the original, bold and underline only turn on, nothing else changes; a cell without width or text keeps everything |
| SemanticOverlay.RowOverlayMeaning | src/app/terminal_model.rs:588-674 | every cell of a row gets its own overlay in that sense |
| SemanticOverlay.ForegroundIsTop | src/app/terminal_model.rs:606-650 | the loop's running foreground choice is the last span of highest priority |
| SemanticOverlay.BackgroundIsTop | src/app/terminal_model.rs:606-650 | the loop's running background choice is the last such span that has a background |
| SemanticOverlay.FlagsAccumulate | src/app/terminal_model.rs:606-650 | underline, bold and the search match are on exactly when some overlapping span turns them on |
| SemanticOverlay.PreservingRolesChangeNothing | src/app/terminal_model.rs:853-863 | spans of paint-preserving roles change nothing |
| SemanticOverlay.OverlapsIffSharesColumn | src/app/terminal_model.rs:811-814 | a span overlaps a cell exactly when it covers one of the cell's columns |
| SemanticOverlay.PaintIsKeptFor | src/app/terminal_model.rs:853-863 | links, paths and network endpoints keep the cell's paint, no other role does |
| SemanticOverlay.PriorityLevels | src/app/terminal_model.rs:816-851 | links win over plain roles, those over details such as arguments and literals, those over diffs |
| SemanticOverlay.OpaqueKeepsColour | src/app/terminal_model.rs:632-650 | a theme colour is painted fully opaque and otherwise unchanged |
| FramePixels.EqualHashesEqualPixels | src/app/terminal_model.rs:770-809 | on grids of any two sizes, rows with equal hashes have equal pixels in their whole band, selection and images included, if the background gradient agrees over the row and its images are clipped alike; images are hashed by metadata only |
| FramePixels.SameBandPixel | src/app/terminal_atlas.rs:449-602 | the painters read neither the grid's width nor, beyond the gradient on the row's own lines, the viewport's height |
| FrameReplay.ReplayReproduces | src/app/terminal_model.rs:541-553 | redrawing the bands of the dirty rows over a screen that shows the previous frame shows every pixel of the new one, if over the clean rows the new frame is no wider, the gradient agrees and the images are clipped alike |
| FrameReplay.ReplaysIffCleanPixelsStay | src/app/terminal_model.rs:541-553 | for any two frames, redrawing the dirty rows works on every such screen if and only if no pixel of a clean row is new or changed |
| FrameReplay.ShowsIffGradientsAgree | src/app/terminal_atlas.rs:1020-1032 | for any one such screen and a frame no wider, where the background shows somewhere in each clean row: it works if and only if the gradients of the two heights agree over the clean rows |
| FrameReplay.ReplaysIffSizesAgree | src/app/terminal_atlas.rs:1020-1032 | for all such screens it works if and only if no row is clean, or the new frame is no wider and the gradients agree |
| FrameReplay.ResizeReplaysIff | src/app/terminal_atlas.rs:1020-1032 | between grids of any two sizes it works for every pair of frames without images if and only if the grids share no row, or the new one is no wider and the two gradients agree on the lines both have |
| FrameReplay.ResizeExample | src/app/terminal_atlas.rs:1020-1032 | a look whose gradients agree for no two different heights |
| FrameReplay.BareShowsGradient | src/app/terminal_atlas.rs:449-602 | a column that no selection, cell, sprite or image of the row reaches shows the bare gradient |
| FrameReplay.ChainReproduces | src/app/terminal_model.rs:477-586 | along any chain of frames, each built or restyled against the one before, redrawing the dirty rows, or every row when the grid changed its size, always shows every pixel of the last frame |
| TerminalPresenter.RetainedShowsLastFrame | src/app/terminal_presenter.rs:445-530 | after any run of presents, scale changes and cache clears the pixels the renderer retains, if any, are those of the last styled frame with its selection and overlay, as long as it has a row |
| TerminalPresenter.OnlyDirtyRowsChange | src/app/terminal_presenter.rs:450-496 | over any run, a present that keeps scale and overlay changes no retained pixel outside the rows its styled frame lists as dirty, if the sizes and clippings agree over the clean rows, as on a grid that keeps its size |
| TerminalPresenter.PresentedFramesAreAChain | src/app/terminal_presenter.rs:450-496 | the styled frames presented since the last cache clear are a chain, each built against the one before |
| TerminalPresenter.BitmapAtlasPresenter.constructor | src/app/terminal_presenter.rs:433-443 | a new presenter has no previous frame and an empty renderer |
| TerminalPresenter.BitmapAtlasPresenter.Present | src/app/terminal_presenter.rs:450-496 | in place: builds the frame against the previous source frame, restyles it against the previous styled one, renders it and remembers both |
| TerminalPresenter.BitmapAtlasPresenter.SetRasterScale | src/app/terminal_presenter.rs:446-448 | changes the renderer only; the previous frames stay |
| TerminalPresenter.BitmapAtlasPresenter.ClearTransientCaches | src/app/terminal_presenter.rs:526-530 | forgets both previous frames and what the renderer retains |
| FramePixels.KeyIsContent | src/app/terminal_presenter.rs:1765-1805 | the surface made from a frame gives the painters, for each row, what the row's hash covers and the grid's width, and nothing else |
| FramePixels.SurfaceIsFrame | src/app/terminal_presenter.rs:1765-1805 | the surface has the frame's size, palette, images and, row by row, its cells |
| TerminalPresenter.StyledMeans | src/app/terminal_presenter.rs:450-496 | the frame a present shows has the surface's cells of each row under the spans found for that row, its images and the given selection |
| FramePixels.UncoveringLeavesBand | src/app/terminal_model.rs:54-136 | a placement that does not cover a row leaves the row's band unchanged |
| FramePixels.LayerPaintsBand | src/app/terminal_atlas.rs:604-641 | in a row's band a layer draws exactly the placements that cover the row, in drawing order |
| FramePixels.SameLayerPaint | src/app/terminal_atlas.rs:604-641 | frames that place the same images over a row and clip them alike draw the same there |
| FrameRows.EqualHashesIffEqualContents | src/app/terminal_model.rs:726-809 | rows have equal hashes if and only if they have equal contents, images included, although those are hashed by metadata only |
| FrameRows.DirtyRowsAreExact | src/app/terminal_model.rs:541-553 | the dirty list names exactly the rows whose content is new or changed |
| FrameRows.SourceRowMeans | src/app/terminal_model.rs:477-586 | a frame row holds the surface's cells of that row, in order, and its hash counts images exactly when one spans it |
| FrameRows.RowTextMeans | src/app/terminal_model.rs:480-515 | a row's text is that of the last row entry with its number, else the visible line there, else empty |
| FrameRows.TerminalModelFrame.RehashRows | src/app/terminal_model.rs:676-696 | gives every row the hash of its own content |
| FrameRows.TerminalModelFrame.FromSurfaceWithSelection | src/app/terminal_model.rs:477-586 | the new frame's hashes are current and its dirty list is the difference to the previous frame |
| FrameRows.TerminalModelFrame.ApplySemanticStyleOverlays | src/app/terminal_model.rs:588-674 | restyles each row by its own spans and leaves hashes and dirty list current |
| FrameRows.TerminalModelFrame.RecomputeRowHashes | src/app/terminal_model.rs:676-708 | makes hashes and dirty list current and changes nothing else |
| FrameRows.TerminalModelFrame.ApplyTerminalImageRowHashes | src/app/terminal_model.rs:770-809 | adds to each row's hash exactly the placements that cover it |
| FrameRows.OverlayCells | src/app/terminal_model.rs:600-674 | the in-place overlay loop gives every cell its overlaid value |
| FrameRows.CollectDirtyRows | src/app/terminal_model.rs:700-708 | the dirty list as the loop builds it |
| SyncTimestamp.NextIsNewest | src/app/bootstrap.rs:5218-5246 | whatever strings are recorded and whatever the clock reads, the next change sorts, as a string, after everything recorded if and only if nothing is recorded, the clock is ahead, or the latest recorded string has a later successor |
| SyncTimestamp.SuccessorOrder | src/app/bootstrap.rs:5227-5232 | one more than a recorded number sorts after it exactly when it is signed, zero, or at least as wide as a timestamp and not all nines |
| SyncTimestamp.NextTimestampIsNewest | src/app/bootstrap.rs:5218-5246 | among 20-digit timestamps that is if and only if the last one is not recorded; the next is then the larger of the clock and one past the latest |
| SyncTimestamp.LocalChangesIncrease | src/app/bootstrap/vault_sync.rs:1758 | over any history of local changes, pushes and pulls, with any clock readings and any remote timestamps, local changes get strictly increasing timestamps as long as each could advance |
| SyncTimestamp.TimestampHistoriesAdvance | src/app/bootstrap/vault_sync.rs:1758 | with 20-digit clocks and remotes each can advance as long as the last timestamp is not recorded |
| SyncTimestamp.StringOrderIsNumericOrder | src/app/bootstrap.rs:5225 | for digit strings of one length string order is numeric order and equality is equality of values |
| SyncTimestamp.ParseUndoesFormat | src/app/bootstrap.rs:5229-5232 | parsing undoes zero-padded printing for every number the parser accepts |
| SyncTimestamp.ParseExactly | src/app/bootstrap.rs:5229-5231 | what parses is a number below 2^128 in digits, with at most one plus sign in front |
| SyncTimestamp.AfterFloor | src/app/bootstrap.rs:5218-5233 | moving past a floor gives a later timestamp unless the floor is the last one |
| SyncTimestamp.FloorIsLatest | src/app/bootstrap.rs:5235-5243 | the maximum taken is one of the recorded strings and no recorded one is later |
| SyncTimestamp.NextIsClockOrSuccessor | src/app/bootstrap.rs:5218-5233 | the floor decides only when it is at or past the clock and has a successor below 2^128; else the clock does |
| SshModalTests.OnlyTheNewestLands | src/app/bootstrap.rs:2138-2191 | a received result changes the dialog if and only if its test is the newest one started and the dialog still waits for a test; a connection shows success, a failure its message, and an unknown host key prompts with its host, port and fingerprint and keeps the test's own profile and key for approval |
| SshModalTests.EachResultIsConsumedOnce | src/app/bootstrap.rs:2138-2160 | over any interleaving each test's result is received, and so believed, at most once |
| SshModalTests.OtherStepsLeaveTheModal | src/app/bootstrap.rs:1827-1849 | starting tests and finishing them in the background never touch the dialog |
| SshModalTests.RunsKeepInv | src/app/bootstrap.rs:1827-1849 | ids number the tests until they saturate, and the active id is the newest test's until its result is received |
| SshModalTests.SaturatedIdsCollide | src/app/bootstrap.rs:1835 | the bound is exact: a run of 2^64 starts at the end of which an older test's result is believed while the dialog waits for the newest |
| SshModalTests.DrainIsRepeatedReceive | src/app/bootstrap.rs:2138-2191 | the receiving loop is the single receive repeated until the channel is empty |
| SshModalTests.DrainReportsLandings | src/app/bootstrap.rs:2138-2191 | it reports a change exactly when some result was believed on the way |
| SshModalTests.SshModalTestState.QueueModalTestConnection | src/app/bootstrap.rs:1827-1849 | takes the next id, saturating, and makes it the active one |
| SshModalTests.SshModalTestState.DrainMessages | src/app/bootstrap.rs:2138-2191 | the loop equals its specification and empties the channel |
| WindowsReleaseRuns.OutcomesExactly | scripts/windows-release.py:15-71 | how a run ends, each outcome if and only if its condition, and the repository it leaves: a failed build, a changed checkout, a crash before the tag, a taken tag, or done |
| WindowsReleaseRuns.TagNeedsGoodBuild | scripts/windows-release.py:65-70 | a run adds a tag only after its own build succeeded, and only the version it decided on |
| WindowsReleaseRuns.RefusalsInOrder | scripts/windows-release.py:16-31 | each refusal before the tags are looked at, if and only if everything before it passed |
| WindowsReleaseRuns.DecisionMeans | scripts/windows-release.py:32-60 | a version tagged elsewhere is raised by one patch unless that is tagged or has no plain version line; any other is released as it is |
| WindowsReleaseRuns.BumpEditsOneLineEach | scripts/windows-release.py:40-53 | a bump changes one version line in each file, the first that fits, and no other file |
| WindowsReleaseRuns.PreparedWithoutBump | scripts/windows-release.py:56-60 | without a bump an untagged version gets one empty commit that announces it, unless HEAD does already |
| WindowsReleaseRuns.RetriesConvergeExactly | scripts/windows-release.py:15-71 | for every clean repository, all sequences of crashed or failed attempts, the checkout reset (git reset --hard, git clean) after each, end, with the run that goes through, in exactly the repository an undisturbed first run would have left, if and only if a run would be refused or a bump's edits hit |
| WindowsReleaseRuns.RetriesConverge | scripts/windows-release.py:15-71 | and then at most one commit is ever made: no version is bumped twice |
| WindowsReleaseRuns.RetryConvergesIffEditsHit | scripts/windows-release.py:42-56 | convergence after a failed build holds if and only if a bump's text edits hit the package's own version lines |
| WindowsReleaseRuns.AttemptReaches | scripts/windows-release.py:15-71 | however one run ends, resetting the checkout gives the original, the prepared or the released repository |
| WindowsReleaseRuns.CommentedVersionIsMissed | scripts/windows-release.py:42-49 | a repository whose manifest edit misses: the run tags a commit that still carries the old version |
| WindowsReleaseRuns.ShadowedLockEntryIsMissed | scripts/windows-release.py:42-49 | a repository whose lock edit misses: manifest and lock disagree afterwards and a retry is refused |
| WindowsReleaseRuns.PreparedAfterBump | scripts/windows-release.py:37-56 | a bump makes one commit with the next version's message, strictly newer and untagged; manifest and lock carry the next version exactly when the edits hit them |
| WindowsReleaseRuns.PreparedIsSettled | scripts/windows-release.py:57-61 | a retry finds its own commit and makes no other, if and only if a bump's edits hit |
| WindowsReleaseRuns.ReleasedIs | scripts/windows-release.py:62-71 | a run that goes through tags HEAD unless HEAD carries the tag; nothing is then left to do if and only if a bump's edits hit |
| WindowsReleaseRuns.DoneIsFinal | scripts/windows-release.py:15-71 | running again after success changes nothing but what the build itself disturbs |
| WindowsReleaseRuns.CreatedTagNamesItsCommit | scripts/windows-release.py:67-70 | a created tag points at the clean commit that was successfully built and announces its version; the manifest there carries the version exactly when the manifest edit hit |
| WindowsReleaseRuns.TagsStayTruthful | scripts/windows-release.py:67-70 | whatever runs, crashes and outside changes follow, such a tag keeps pointing at a commit with that manifest version |
| WindowsReleaseRuns.TaggedOnce | scripts/windows-release.py:67-70 | the script tags a version at most once |
| WindowsReleaseRuns.HistoriesOnlyExtend | scripts/windows-release.py:15-71 | over any history no tag moves and no commit is lost |
| WindowsReleaseRuns.LockAfterEdit | scripts/windows-release.py:44-54 | after the edit the workspace's own lock entry carries the new version exactly when the edit hit it |
| WindowsRelease.Checkout.ReleaseRun | scripts/windows-release.py:15-71 | the step-by-step run, stopped after any number of effects, equals its specification in state and outcome |
| WindowsRelease.Checkout.CheckFirst | scripts/windows-release.py:16-33 | the refusals before anything is written, in order |
| WindowsRelease.Checkout.BumpCommit | scripts/windows-release.py:52-56 | the four effects of a bump, any prefix of them when the script dies |
| WindowsRelease.Checkout.BuildAndTag | scripts/windows-release.py:62-71 | builds, refuses a changed checkout, and tags only what was not tagged |
| WindowsRelease.Checkout.NewTexts | scripts/windows-release.py:42-51 | both new texts or none: nothing is written unless both version lines are found |
| LimitedWriter.ExceededIffUnlimitedOvershoots | src/app/clipboard.rs:406-436 | for any client, adaptive to replies, the flag is set exactly when an unlimited cursor would have left the limit; until then buffer, position and replies are the unlimited cursor's |
| LimitedWriter.BufferStaysWithinLimit | src/app/clipboard.rs:406-436 | the buffer never exceeds the limit, even after a seek beyond it |
| LimitedWriter.ExceededIsSticky | src/app/clipboard.rs:406-436 | the exceeded flag is never cleared |
| LimitedWriter.EncodedIsWholeOrRefused | src/app/clipboard.rs:331-352 | the limit error is reported exactly when the encoder needed room past it, whatever the encoder made of the refusal; otherwise the result is the one an unlimited buffer gives, an encoder's own failure or the complete image within the limit |
| LimitedWriter.OverwriteMeaning | src/app/clipboard.rs:417 | what a cursor write leaves at every position: the new bytes, the old ones, or zeros in a gap |
| LimitedWriter.CallMeans | src/app/clipboard.rs:406-436 | a write past the limit is refused and flagged and changes nothing, a seek past it moves but is refused and flagged, an impossible seek fails and stays, anything else is the cursor's |
| LimitedWriter.LimitedVecWriter.Write | src/app/clipboard.rs:406-422 | refuses and flags a write that would end past the limit, else writes as the cursor does |
| LimitedWriter.LimitedVecWriter.Seek | src/app/clipboard.rs:424-436 | moves even beyond the limit, but flags and reports it |
| LimitedWriter.LimitedVecWriter.Serve | src/app/clipboard.rs:331-335 | a client driven for any number of calls gets the replies of the specification |
| RecentAssets.RecentListMeaning | src/app/quick_launch_preferences.rs:70-92 | after any history of opens the list is the latest opens of the distinct assets, newest first, as many as the cap admits |
| RecentAssets.HistoryIsCappedDistinct | src/app/quick_launch_preferences.rs:70-92 | cutting at the cap after every open loses nothing that cutting once at the end would keep |
| RecentAssets.DistinctListsLatest | src/app/quick_launch_preferences.rs:70-92 | the uncut list holds every asset once, with its latest open, newest first |
| RecentAssets.RecordRecentAssetOpened | src/app/quick_launch_preferences.rs:70-92 | push, filter and truncate compute the recorded list |
| WindowGeometry.RoundTripIffFirstTouchedContains | src/app/window_geometry.rs:31-64 | on all inputs: a saved window that touches a monitor comes back at exactly its place and size if and only if the first monitor it touches contains it and clamping there does not wrap; one that touches none is centred in the first monitor |
| WindowGeometry.SavedWindowsTouch | src/app/window_geometry.rs:49-64 | while no edge leaves the 32-bit range a saved window touches a monitor and clamping does not wrap |
| WindowGeometry.PersistedExactly | src/app/window_geometry.rs:49-64 | a place is saved exactly for a restored window of positive size that some monitor contains, and it is the window's own |
| WindowGeometry.OverlappingMonitorsMoveTheWindow | src/app/window_geometry.rs:31-64 | two overlapping monitors and a saved window that comes back elsewhere and smaller |
| WindowGeometry.WrappedEdgesMoveTheWindow | src/app/window_geometry.rs:76-111 | a monitor whose edges wrap and a saved window that comes back centred |
| WindowGeometry.SeparateMonitorsRoundTrip | src/app/window_geometry.rs:31-64 | on separate monitors of positive size, while no edge leaves the 32-bit range, every saved window comes back exactly |
| WindowGeometry.ResolvedExactly | src/app/window_geometry.rs:31-47 | on all inputs: startup panics exactly when the touched monitor's last position wraps, finds a place exactly when there is a monitor, and the window is clamped into the touched monitor, or centred in the first one, inside exactly when the centred position does not wrap |
| WindowGeometry.ResolvedLiesInsideAMonitor | src/app/window_geometry.rs:31-47 | while no monitor leaves the 32-bit range, startup never panics and the window lies wholly inside a listed monitor |
| WindowGeometry.ClampIsNearest | src/app/window_geometry.rs:113-129 | on all inputs: clamping panics exactly when the last position wraps, else the window keeps what size fits and moves no further than any other placement inside the monitor |
| WindowGeometry.CenterIsCentered | src/app/window_geometry.rs:131-149 | on all inputs: the centred window lies inside the monitor exactly when its position does not wrap, and its margins then differ by at most one pixel |
| WindowGeometry.TestsMeanGeometry | src/app/window_geometry.rs:76-111 | the wrapped edge comparisons mean containment and overlap of rectangles while edges are 32-bit coordinates |
| WindowGeometry.FirstIntersectingIsFirst | src/app/window_geometry.rs:66-74 | the search returns the first touched monitor, or none is touched |

## Left out

Assumptions the model makes:

- Hashes and fingerprints (row hashes, image fingerprints, content hashes) are injective keys; the zero row hash is a key no row has.
- Fresh request ids never repeat (`Uuid::new_v4`).
- Font shaping and rasterising, gradient interpolation, contrast and search-match blending are fixed functions of their inputs; a sprite is at most one cell high. Raster scales are reals, so `f32` rounding is not modelled.
- Surface and cell sizes in pixels are unbounded naturals in the atlas; the 32-bit overflow of their products and the saturating addition of destination coordinates in the image blit are not modelled.
- The semantic analysis of a frame is a function of the frame that each present is given; a present does not fail.
- A render's outcome is the retained state and the list of rerendered rows; the copy into the output image and the cache statistics are not.
- `std::io::Cursor<Vec<u8>>` behaves as its documentation says, and the writer's limit is at most `isize::MAX`.
- In the release script, `Cargo.toml` is the package table's version plus the plain version lines after it, and `Cargo.lock` a list of entries; comments or strings that contain the searched text are not modelled. A git command does what its manual says or the run stops there.
- The host-key prompt keeps host and port apart instead of one `host:port` string, and the menus it closes are not modelled.
- Others never delete commits or tags between runs of the release script.

Parts of the repository without a model:

- `session_ids` and `copy_path` of the paste controller, and the user-visible error messages of the drain loop: reads without effect on the protocol.
- Cursor, viewport and presentation-mode fields of the terminal frame, and the projection of a selection into a scrolled viewport.
- Sprite rasterisation, emoji composition and the mono alpha mask of single glyphs.
- `reconcile_vec_model_rows`, `retain_known_ssh_asset_ids`, `validate_windows_bitmap_metadata`, `validate_image_dimensions`: single-branch facts that would only add easy members.
- The vault merge and sync engine, session manager, SFTP queue, ZMODEM, view models and all window, clipboard and process plumbing.

Contracts stated for less than every input:

- SeparateMonitorsRoundTrip: for windows and monitors whose edges are 32-bit coordinates; WrappedEdgesMoveTheWindow shows a failure beyond, RoundTripIffFirstTouchedContains covers all inputs.
- ResolvedLiesInsideAMonitor: for monitors whose edges are 32-bit coordinates; ResolvedExactly covers all inputs.
- NextTimestampIsNewest: for 20-digit timestamps; NextIsNewest covers all strings.
- SoleUpperImageShows: where no lower image reaches the pixel.
- SampleIsNearest: for a non-empty texture slice within the texture scale and destinations below 2^31 pixels, beyond which the source's sums saturate.
- OverlapsIffSharesColumn: for spans that do not end before they start and cells inside 32-bit columns.
- ReplaysIffSizesAgree: for frames whose images are clipped alike over the clean rows and whose background shows somewhere in each of them; ReplaysIffCleanPixelsStay covers all frames, ResizeReplaysIff all sizes.
- ShowsIffGradientsAgree: for the same frames and no wider ones, screen by screen.
- ReplayReproduces: for images clipped alike over the clean rows, as on equal grids or where no image covers a clean row; ReplaysIffCleanPixelsStay covers all frames.
- RetainedShowsLastFrame: for frames with at least one row; RenderWithoutRows covers a rowless surface.
- WholeImageIsCopied: for images of at most half the texture scale (500,000 pixels) per axis, beyond which a texture step is coarser than half a pixel.
