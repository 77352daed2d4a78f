# Verified model of the agent monitor's hard parts

This project models, in Dafny, the parts of the program whose correctness is not evident from reading one function,
and proves what they promise. Five areas are covered.

**The board router and the connectivity audit** (`src/EdaAccelerators.cxx`). `Closure` defines what a list of unions
makes reachable; `DisjointSets` proves both union-find variants (path halving, and walk-then-compress) against it.
`ConnectivityAudit` proves the audit's verdict and airwire, `Islands` the islands the router starts from. `Grid`,
`Bridging`, `SearchProof`, `SearchBuffers` and `BridgeSearch` model the multi-source search with its generation-stamped
arrays and prove that a bridge it finds is legal, simple and cheapest, and that it finds one whenever one exists.
`Counters`, `Discs`, `NetCopper` and `Autoroute` model committing a net's copper to per-cell counters, ripping it up
again, and the negotiation passes; the invariant `Router.Valid` says that every counter is exactly the number of routed
nets whose recorded list holds the cell, and that every routed net's bridges are lawful and join islands of its own.
`Clearance` (Stewart's theorem on squared distances) and `RoutedClearance` turn a zero violation count into real
distances between copper. `Tolls` says what every other net on the board charges a walk and where a step may go, so
that "cheapest" means cheapest in charges read off the nets' recorded lists. `StepGeometry` and `ExactClearance` find exactly which pairs of widths keep their own rule, and
`CrowdedBoard` gives a board on which the router breaks it for every other pair. `RoutedBoard` states what a whole run
promises for the nets it was given and what becomes of a net in a later pass, `PartialRouting` what "routed" leaves open. `Ownership` proves the two rasterisers
equal and independent of the order of primitives, `Emission` that tracks and vias lose nothing, and `SchematicRouter`
the wires between two pins. `Basics` holds small shared notions.

**Transcript ingestion** (`src/ClaudeCollector.cxx`, `src/ClaudeUsageStore.cxx`). `UsageStore` is the table that keeps
the largest row of a key, `TranscriptScan` the chunked reader with its byte budget and batches, and `ExactlyOnce` whole
runs: whatever order of polls, appends, spent budgets and failures, the table is one-shot ingestion of a prefix of the
transcript's complete lines, which keeps every valid row those lines give and holds nothing else.

**Costing and billing cycles** (`src/ClaudeUsageStore.cxx`). `PriceVersions` picks versions and rates, `Costing` proves
that grouping rows and pricing each group with saturating 64-bit integers shows the exact sum of per-message prices,
`TierPricing` which prompts pay the upper rates, and `BillingCycle` that monthly cycles tile time on the civil calendar.

**Schematics** (`src/KiCadSchematicEditor.cxx`). `Sexp` is the parser, `SexpPrinting` quoting and the parse-print round
trip, `Decimals` the lengths in the text, `Schematic` the netlist a schematic stands for, `LonePins` when two points are
one and when a pin is in no net, `KeyedSets` and
`NetlistBuilder` its construction over a map-based union-find, `SchematicText` and `SchematicTrees` the printed form,
`SchematicReading` the extractor, and `SchematicRoundTrip` the theorem that saving and reloading keeps the netlist.

**Agent sessions and smaller refinements** (`src/AgentHookHandler.cxx`, `src/AgentTelemetryDb.cxx`,
`src/DynamicToolRegistry.cxx`, `src/CursorCollector.cxx`). `HookSession` keeps a session's record, its row and its events
in step; `ToolRegistry` keeps the cache of best tools right; `Base64Url` decodes what section 5 of RFC 4648 encodes.

Conventions. Coordinates of the board are grid cells and `real` millimetres; schematic lengths are whole numbers of
0.0001 mm. SQLite tables are maps, a query's result is a parameter described by a predicate, and a statement or a read
that may fail is a nondeterministic choice. The square root is a parameter that squares back; the closeness of primitives
and their coverage of cells are arbitrary relations.

Facts about the code that the proofs brought out:

- Two wide nets may break their own clearance rule although no violation is counted. A pair of widths is safe exactly
  when it is roomy: no grid offset beyond both halos is shorter than the rule, counting offsets across a diagonal step
  as half a squared step shorter. Roomy pairs keep their rule in every undisturbed board
  (`ExactClearance.RoomyKeepsRule`); for every other pair there is a board whose run ends with both nets routed, a zero
  count and the rule broken (`CrowdedBoard.BreakRule`). Two 2 mm tracks with default tracks and clearance of 0.2 mm on a
  0.25 mm grid may come 1.5 mm close instead of 2.2 mm (`CrowdedBoard.WideTracksTooClose`). A pair with one net no wider
  than the default track is always roomy (`ExactClearance.NarrowIsRoomy`).
- A transcript line can stop its transcript for good. Every way of reading moves the cursor exactly when a newline lies
  within the byte budget, reads of whole chunks exactly when one lies within the budget rounded up to chunks, and some
  way of reading exactly when one lies within the budget and a chunk less one byte (`ExactlyOnce.EveryReadMoves`,
  `FullReadsMove`, `SomeReadMoves`). Beyond that no append and no poll ever moves the cursor again (`ExactlyOnce.Poller`);
  `ExactlyOnce.PollLongLine` polls such a transcript.
- A part comes back from saving under its own reference exactly when no extra property prints as `Reference`, or the last
  one that does prints the same value (`SchematicReading.ReferenceSurvives`). Otherwise its pins move to the other
  reference in the netlist (`SchematicRoundTrip.EntriesMove`, `SaveTwiceNamed`).
- A net counts as routed once two of its islands are joined: where every element has cells, success means enough islands
  or at least one bridge (`PartialRouting.SuccessMeansSome`), and `PartialRouting.WalledPad` is a run that reports every
  net as routed although a pad behind a wall is left out.

## Model

| member | source | states |
|---|---|---|
| DisjointSets.DisjointSet.Find | src/EdaAccelerators.cxx:1300-1306 | path halving ends at the representative of the class and leaves the partition untouched |
| DisjointSets.DisjointSet.FindCompress | src/EdaAccelerators.cxx:5395-5404 | the audit's walk-then-compress find does the same |
| DisjointSets.DisjointSet.Unite | src/EdaAccelerators.cxx:1307-1311 | two elements share a root exactly when a chain of unions links them; one union adds exactly one link |
| Closure.MergeRepresents | src/EdaAccelerators.cxx:1307-1311 | attaching one class to another represents the closure with exactly the new union added |
| Closure.LinkedIffConnected | src/EdaAccelerators.cxx:3287-3293 | unions made for all touching pairs link exactly what chains of touching elements connect |
| ConnectivityAudit.AuditNet | src/EdaAccelerators.cxx:5390-5557 | a net is fully routed iff all its pads are mutually reachable; otherwise the airwire is a closest pair of pads of different islands and the island count is the number of pad classes |
| ConnectivityAudit.FirstsPickOnePerIsland | src/EdaAccelerators.cxx:5512-5515 | the first pads of the islands are pairwise in different islands and every pad's island has one |
| ConnectivityAudit.ClosestAcross | src/EdaAccelerators.cxx:5520-5539 | the double loop over islands finds a pair no longer than any other pair across islands |
| Islands.BuildIslands | src/EdaAccelerators.cxx:3287-3425 | elements share an island iff a chain of contacts joins them; copper lists the cells of anchored islands once each, each with a copper point of an element on it, an end point whenever one ends there; every number below the count is used; required and padless counts, and a start island with most cells |
| Islands.NumberIslands | src/EdaAccelerators.cxx:3386-3394 | islands are numbered from zero without gaps, one number per class |
| Islands.GoalsRemain | src/EdaAccelerators.cxx:3484-3512 | while fewer islands are joined than required, goal cells remain |
| Grid.NodeIdxDecodes | src/EdaAccelerators.cxx:3506-3506 | the flat cell index is in range and decodes to its cell |
| Grid.ParentCodeInverts | src/EdaAccelerators.cxx:3607-3615 | the one-byte parent code leads back from the entered cell to the cell it was entered from |
| Grid.EightNeighbours | src/EdaAccelerators.cxx:3445-3446 | the directions are the eight neighbours, each once, the diagonals last |
| Bridging.HeuristicConsistent | src/EdaAccelerators.cxx:3513-3519 | the octile distance to the goal box never drops by more than the cost of a legal step, whatever the history, congestion and via costs |
| Bridging.HeuristicZeroOnGoals | src/EdaAccelerators.cxx:3513-3519 | the estimate is zero on every goal |
| Bridging.EstimateCounts | src/EdaAccelerators.cxx:3513-3519 | the estimate is one for every straight step to the goal box and 1.41421356 for every diagonal one |
| Bridging.GapIsDistance | src/EdaAccelerators.cxx:3514-3515 | the distance to a side of the box: some point of it is that far and none is closer |
| Bridging.HaloRaisesCost | src/EdaAccelerators.cxx:3573-3596 | one more halo on a cell makes a planar step into it dearer by its length, a via into it by the via cost, a diagonal past it by half its length, each times history and present factor, and no other step |
| Bridging.ViaHaloRaisesCost | src/EdaAccelerators.cxx:3592-3594 | one more via halo on a column makes every via there dearer by the via cost times history and present factor, and no other step |
| SearchProof.PoppedGoalIsCheapest | src/EdaAccelerators.cxx:3555-3562 | when a goal is popped, no legal walk from any seed with its start cost to any goal is cheaper |
| SearchProof.EmptyQueueMeansNoBridge | src/EdaAccelerators.cxx:3555-3601 | when the queue runs dry, no seed reaches any goal |
| SearchBuffers.Buffers.Begin | src/EdaAccelerators.cxx:3488-3494 | a new generation forgets every label and mark, also when the 32-bit generation wraps |
| BridgeSearch.MarkGoals | src/EdaAccelerators.cxx:3497-3512 | the goals are the copper of the islands not joined yet, and the box holds them all |
| BridgeSearch.PlaceSeeds | src/EdaAccelerators.cxx:3534-3542 | every copper cell of the joined islands and every cell of earlier bridges is a seed with its start cost, unless it is a goal |
| BridgeSearch.FirstCopperSeeds | src/EdaAccelerators.cxx:3520-3536 | the first joined copper cell at a place that is no goal starts the search there, free at an end and for 0.75 on an interior, at its exact point |
| BridgeSearch.GrownStartFree | src/EdaAccelerators.cxx:3537-3542 | a cell of an earlier bridge starts free at its centre unless copper started there already |
| BridgeSearch.Expand | src/EdaAccelerators.cxx:3563-3596 | all legal planar and via moves out of a cell are relaxed and no others |
| BridgeSearch.WalkBack | src/EdaAccelerators.cxx:3603-3617 | following parent codes reaches a seed within as many steps as the grid has cells and never repeats a cell |
| BridgeSearch.FindBridge | src/EdaAccelerators.cxx:3488-3634 | no goal iff none is left; a bridge found is legal, simple, free of foreign copper inside, ends on a new island and is cheapest; otherwise none exists |
| Autoroute.Router.RouteNet | src/EdaAccelerators.cxx:3479-3634 | after k bridges exactly k+1 different islands are joined, each by a cheapest bridge from what was joined; it stops when enough are joined or no bridge exists, and says how it reports partial success |
| Autoroute.BridgedConnects | src/EdaAccelerators.cxx:3484-3634 | every bridge leaves copper joined before it and ends on the copper of a new island |
| Tolls.AmongReads | src/EdaAccelerators.cxx:3444-3450 | a search reads its own net, the present factor, the ownership and history of every cell, and a via cost of 1.25 mm of track but at least two steps |
| Tolls.AnotherNetCosts | src/EdaAccelerators.cxx:3573-3596 | one more net on the board raises the cost of every walk by exactly its tolls: what its recorded halo and via halo lists charge step by step |
| Tolls.WalkAmong | src/EdaAccelerators.cxx:3573-3596 | the cost of a walk is its fare on an empty board and the tolls of all nets on the board |
| Tolls.BridgeSavesTolls | src/EdaAccelerators.cxx:3479-3634 | a bridge found among other nets is charged no more, fare and tolls together, than any other legal walk from joined to new copper |
| Tolls.JoinedForbids | src/EdaAccelerators.cxx:3583-3588 | one more net forbids exactly the vias in the columns on its recorded list |
| Tolls.LegalNeighbours | src/EdaAccelerators.cxx:3563-3596 | a legal step joins two cells iff they are neighbours, the one entered is a goal or usable, and no corner, column or new via stands against it |
| Counters.TallyOthers | src/EdaAccelerators.cxx:3718-3728 | a count above one on a record's own cell means exactly that another record holds the cell |
| Counters.CoverCounter.Begin | src/EdaAccelerators.cxx:3636-3650 | a new stamp generation marks nothing, also when it wraps |
| Counters.CoverCounter.Cover | src/EdaAccelerators.cxx:3650-3697 | a cell covered by several discs of one commit is counted and recorded once, and 16-bit counters do not wrap |
| Counters.CoverCounter.Release | src/EdaAccelerators.cxx:3699-3716 | taking a record back leaves exact counts; the guard against zero never fires |
| Discs.DiscOffsets | src/EdaAccelerators.cxx:3452-3463 | the offsets listed are exactly those of the disc; the bounding box cuts none off |
| Discs.BoxHoldsDisc | src/EdaAccelerators.cxx:3454-3456 | every offset of the disc is within ceil(r / grid) in both directions |
| Discs.DiscReach | src/EdaAccelerators.cxx:3452-3463 | an offset is in the disc iff its length is at most the radius and 1e-9 |
| NetCopper.SortUnique | src/EdaAccelerators.cxx:3636-3697 | the centre lists hold each cell once and nothing else |
| Autoroute.Router.CommitSites | src/EdaAccelerators.cxx:3650-3690 | the lists recorded for a net are exactly the cells its track, via and clearance discs cover on each layer |
| Autoroute.Router.CommitNet | src/EdaAccelerators.cxx:3636-3697 | committing keeps every counter equal to the number of nets that list the cell, changes no other net, and keeps the net's identity, width, copper and bridges |
| Autoroute.Router.RipUpNet | src/EdaAccelerators.cxx:3699-3716 | ripping up removes exactly the net's own copper from all three counters |
| Autoroute.Router.NetViolations | src/EdaAccelerators.cxx:3718-3728 | the number of the net's centre cells and via sites that another net's halo covers, zero iff none is |
| Autoroute.Router.Penalise | src/EdaAccelerators.cxx:3738-3762 | each crowded centre cell and each layer of a crowded via site becomes dearer by one and a half per other net, and nothing else changes; the report is whether the net is disturbed |
| Autoroute.Router.Assess | src/EdaAccelerators.cxx:3735-3764 | congestion is reported iff some routed net is disturbed, completion iff all nets are routed; the history grows by exactly the charges of all routed nets |
| Autoroute.Router.DrawUp | src/EdaAccelerators.cxx:3765-3780 | the list to rip up is exactly the unrouted and disturbed nets |
| Autoroute.Router.RipUpDisturbed | src/EdaAccelerators.cxx:3765-3780 | exactly those nets lose their copper and nothing else; every other net keeps all it had |
| Autoroute.Router.RouteOne | src/EdaAccelerators.cxx:3775-3788 | a net is bridged on the terrain that the nets on the board make, and is routed iff that reports success |
| Autoroute.Router.RouteUnrouted | src/EdaAccelerators.cxx:3775-3788 | routed nets are left alone; every other net in order is bridged on the terrain that the nets before it left, stopping with enough islands or when no bridge exists, and is routed iff that reported success |
| Autoroute.Router.RoutePass | src/EdaAccelerators.cxx:3765-3788 | the first pass takes nothing up; a later one leaves every routed net alone that is not crowded, strips every other net bare and bridges it anew, in the order read backwards iff there is such a net |
| Autoroute.Router.CountViolations | src/EdaAccelerators.cxx:3790-3793 | the sum of the routed nets' shared cells and sites, zero iff no routed net is disturbed |
| Autoroute.Router.RoutePasses | src/EdaAccelerators.cxx:3735-3793 | after any number of passes the bookkeeping holds and the nets are the ones given; the passes form a run in which each goes on from the nets, order and history of the one before; stopping early means every net is routed and none disturbed |
| Autoroute.Router.SlackSquares | src/EdaAccelerators.cxx:3051-3058 | the inflated radii have the squares r*r + g*g/2 and r*r + g*g |
| Autoroute.Router.HaloRadii | src/EdaAccelerators.cxx:3464-3465 | the squares of the four radii a net of given width stamps, in terms of widths, clearance and grid |
| Clearance.Stewart | src/EdaAccelerators.cxx:3051-3058 | the squared distance from a point of a segment in terms of the distances from its ends |
| Clearance.SegmentToSegment | src/EdaAccelerators.cxx:3051-3058 | if the ends of two grid steps keep the doubly inflated radius, the steps keep the radius itself |
| Clearance.PointToStep | src/EdaAccelerators.cxx:3051-3058 | for a via against a grid step the singly inflated radius is enough |
| RoutedClearance.OwnCentreCount | src/EdaAccelerators.cxx:3718-3728 | on a routed net's own centre cell the counter exceeds one iff another net's halo covers it |
| RoutedClearance.CrowdedIsShared | src/EdaAccelerators.cxx:3718-3728 | the counters call a net crowded iff the recorded halo of another net holds one of its cells or via sites |
| RoutedClearance.NarrowTracksApart | src/EdaAccelerators.cxx:3718-3728 | an undisturbed net no wider than the default track keeps its clearance from every grid step of another routed net |
| RoutedClearance.NoViolationsMeansClear | src/EdaAccelerators.cxx:3790-3793 | with no violation left, grid steps of any two routed nets, one of them no wider than the default track, are at least (w1+w2)/2 + clearance apart; vias keep their track clearance and their pitch |
| StepGeometry.StepsAway | src/EdaAccelerators.cxx:3051-3056 | two grid steps come no closer than their four pairs of ends allow, less half a squared step where a diagonal passes between two cells |
| ExactClearance.RoomyKeepsRule | src/EdaAccelerators.cxx:3645-3645 | undisturbed nets of a roomy pair of widths keep (w1+w2)/2 + clearance on every layer |
| ExactClearance.NarrowIsRoomy | src/EdaAccelerators.cxx:3051-3058 | a pair with a net no wider than the default track is roomy |
| CrowdedBoard.BreakRule | src/EdaAccelerators.cxx:3735-3793 | for every pair of widths that is not roomy, a pass on a board of two nets ends with both routed, nothing counted and their rule broken |
| CrowdedBoard.JoinedAmong | src/EdaAccelerators.cxx:3479-3634 | bridging pads in neighbouring cells over a step no halo touches takes exactly that step |
| CrowdedBoard.WideTracksCrowd | src/EdaAccelerators.cxx:2634-2634 | 2 mm tracks on a 0.25 mm grid with 0.2 mm defaults are not roomy: six cells apart is beyond both halos |
| CrowdedBoard.WideTracksTooClose | src/EdaAccelerators.cxx:3790-3793 | so a run with a zero count leaves two such tracks closer than 2.2 mm |
| RoutedBoard.RouteBoard | src/EdaAccelerators.cxx:3735-3793 | from the nets given to their own rules: a zero count means every pair of routed nets keeps the via rules of its given widths, and its track rule if roomy; routed nets join their own given copper; in every later pass the nets that were not routed or shared copper are bridged anew and the others stay |
| RoutedBoard.LaterTurn | src/EdaAccelerators.cxx:3765-3788 | what becomes of one net in a later pass of a run: unchanged iff it was routed and shared nothing, else taken off and bridged on the terrain of that pass |
| RoutedBoard.EmitRouted | src/EdaAccelerators.cxx:3804-3905 | every routed net of a finished board can be emitted, giving back the steps and layer changes of its bridges |
| RoutedBoard.RoutedIsPath | src/EdaAccelerators.cxx:3837-3905 | the bridges of a routed net stay paths of different cells through all passes |
| PartialRouting.SuccessMeansSome | src/EdaAccelerators.cxx:3479-3601 | with islands built from elements that have cells, bridging reports success iff enough islands or at least two are joined |
| PartialRouting.WalledPad | src/EdaAccelerators.cxx:3599-3601 | a net is reported as routed although one of three islands is left out |
| Ownership.FoldIsJoin | src/EdaAccelerators.cxx:3031-3037 | marking a slot with owners one by one gives nobody, the one owner all agree on, or block-all |
| Ownership.OrderIrrelevant | src/EdaAccelerators.cxx:3031-3037 | the result depends only on which owners reach the slot |
| Ownership.PrimitiveOrderIrrelevant | src/EdaAccelerators.cxx:3151-3203 | the ownership grids do not depend on the order in which primitives are drawn |
| Ownership.ClaimPadCentres | src/EdaAccelerators.cxx:3205-3215 | pads claim their centre cells for their nets, the last claim winning, and no other cell changes |
| Ownership.ClaimedIsOwn | src/EdaAccelerators.cxx:3205-3215 | a cell only one net's pads lie on ends up that net's, whatever was rasterised |
| Ownership.Scatter | src/EdaAccelerators.cxx:3151-3203 | stamping primitive by primitive fills both grids with the join of the owners covering each cell |
| Ownership.Gather | src/EdaAccelerators.cxx:372-465 | looping cell by cell over all primitives fills the same grids |
| Ownership.LateOverride | src/EdaAccelerators.cxx:3150-3155 | blocking pinned pad centres afterwards gives what blocking them along the way gives |
| Ownership.KernelIndex | src/EdaAccelerators.cxx:372-465 | the kernel's own cell index is the router's |
| Ownership.RasterIsUnique | src/EdaAccelerators.cxx:3151-3203 | both rasterisers leave equal grids, slot for slot |
| Emission.EmitBridge | src/EdaAccelerators.cxx:3837-3905 | running over the tracks gives back the path's planar steps in order, every straight run is one track, vias are added exactly where the layer changes and none twice, and the stubs leave from the ends |
| Emission.EmitNet | src/EdaAccelerators.cxx:3804-3905 | the same for all bridges of a net, with its vias shared |
| SchematicRouter.FindPath | src/EdaAccelerators.cxx:1745-1795 | the search ends; it reaches the goal, or the points reached are closed under legal steps and exclude the goal; every label is the price of a legal walk, one for a step and two for a bend |
| SchematicRouter.Task.EnclosedHasNoPath | src/EdaAccelerators.cxx:1773-1795 | a set closed under legal steps without the goal means that no legal path in the box exists |
| SchematicRouter.WalkBack | src/EdaAccelerators.cxx:1798-1805 | following parents ends at the start and gives a legal path of different points |
| SchematicRouter.Coalesce | src/EdaAccelerators.cxx:1814-1841 | wires join consecutive cut points of the path, each run on one axis, from first to last point |
| SchematicRouter.OneAxisIsStraight | src/EdaAccelerators.cxx:1820-1828 | a run on one axis of such a path covers exactly its points in order, so merging never turns back |
| SchematicRouter.LegalIsFree | src/EdaAccelerators.cxx:1745-1795 | the legal paths are those over neighbouring points within 15 of the pins that are not blocked but for the pins |
| SchematicRouter.RouteTwoPoints | src/EdaAccelerators.cxx:1744-1842 | wires are axis-aligned and chain from pin to pin; they trace such a path, and the fallback corner is used only when none exists |
| UsageStore.Store.Ingest | src/ClaudeUsageStore.cxx:256-347 | success ingests every row in order and counts exactly the new keys, the raised entries, the rejected rows and the rest; failure leaves the table as it was |
| UsageStore.Store.SaveCursor | src/ClaudeUsageStore.cxx:571-588 | only well-formed cursors are stored, and nothing else changes |
| UsageStore.KeepsFirstLargest | src/ClaudeUsageStore.cxx:283-337 | exactly the keys of valid rows are present, each with the first row of largest output |
| UsageStore.EntryHasRow | src/ClaudeUsageStore.cxx:300-337 | a new or changed entry records a valid row of its key, field by field |
| UsageStore.AcceptedAlone | src/ClaudeUsageStore.cxx:33-39 | a row gets into an empty table iff its fields are within the limits, given in figures, and then as it is |
| UsageStore.Reingest | src/ClaudeUsageStore.cxx:283-337 | ingesting any rows again that are already in changes nothing |
| TranscriptScan.SplitConcat | src/ClaudeCollector.cxx:607-665 | cutting a text at a line end and splitting the parts gives the lines of the whole |
| TranscriptScan.ScanChunk | src/ClaudeCollector.cxx:625-675 | whatever the chunk and batch sizes, everything in complete lines is in the table or the batch, long lines are dropped and counted once, and a failed flush leaves a line-end prefix ingested |
| TranscriptScan.ScanFile | src/ClaudeCollector.cxx:571-702 | a finished scan has ingested exactly the complete lines up to the last newline read, keeps every valid row they give and adds nothing else, counted skips once, stopped where the sizes of its reads say, and saved the cursor there; an unchanged file is left alone; a failure keeps the cursor |
| TranscriptScan.UptoKeepsLines | src/ClaudeCollector.cxx:625-675 | a line that parses to a valid row, with or without one carriage return at its end, leaves the row's message in the table with at least its output; every changed entry records the row of some line |
| ExactlyOnce.Replay | src/ClaudeCollector.cxx:585-591 | reading again from an earlier line end leaves the table at the later of the two ends |
| ExactlyOnce.Poller.Append | src/ClaudeCollector.cxx:585-591 | appending keeps the table and cursor right, and a stuck transcript stuck |
| ExactlyOnce.Poller.Poll | src/ClaudeCollector.cxx:571-702 | after every poll the table is one-shot ingestion of a prefix reaching the cursor, keeps every valid row of its lines and holds nothing else; the cursor never moves back, a finished scan moves it iff a newline lies before the place where reading stopped, the shortcut hides no complete line, and a stuck transcript stays stuck |
| ExactlyOnce.EveryReadMoves | src/ClaudeCollector.cxx:607-697 | every way of reading moves the cursor iff a newline lies within the byte budget |
| ExactlyOnce.SomeReadMoves | src/ClaudeCollector.cxx:607-697 | some way of reading moves the cursor iff a newline lies within the budget and a chunk less one byte |
| ExactlyOnce.FullReadsMove | src/ClaudeCollector.cxx:607-697 | reads of whole chunks move the cursor iff a newline lies within the budget rounded up to chunks |
| ExactlyOnce.PollLongLine | src/ClaudeCollector.cxx:607-697 | a line as long as that window is never passed, however often and in whatever pieces it is polled |
| PriceVersions.PriceVersion | src/ClaudeUsageStore.cxx:78-88 | the loop chooses the specified version |
| PriceVersions.InForceIsLatest | include/ClaudeUsageStore.hxx:92-99 | the version in force is one not after the message, and none such takes effect later |
| PriceVersions.SortKeepsInForce | src/ClaudeUsageStore.cxx:362-367 | stable sorting does not change which version is in force |
| PriceVersions.PricedInForce | src/ClaudeUsageStore.cxx:78-88 | the chosen version of the sorted list is the one in force, or the earliest for older messages |
| PriceVersions.Resolve | src/PriceCatalog.cxx:675-694 | a model in the catalog is itself; another resolves to the catalog name it dates with a dash and eight digits, and to nothing iff it dates none |
| Costing.AddChecked | src/ClaudeUsageStore.cxx:52-60 | the sum, capped at the largest 64-bit integer and flagged when it was |
| Costing.MulAddChecked | src/ClaudeUsageStore.cxx:62-70 | keeps the accumulator the capped exact value, flagged iff the exact value exceeds the cap |
| Costing.GroupPrice | src/ClaudeUsageStore.cxx:410-448 | the price of a group's token sums is the sum of its messages' own prices; unpriced groups are all unpriced |
| Costing.CostOfGroup | src/ClaudeUsageStore.cxx:425-448 | the five saturating products show the exact price of the group |
| Costing.PartsAddUp | src/ClaudeUsageStore.cxx:381-386 | sums over the parts of a partition are the sums over the whole |
| Costing.Aggregate | src/ClaudeUsageStore.cxx:357-458 | one bucket for each day and model of a row and no other; each shows the exact sums of its rows priced one by one, its cost capped and flagged iff it exceeds the cap; failure leaves none |
| TierPricing.SmallPromptsPayStandard | src/ClaudeUsageStore.cxx:92-110 | if no prompt exceeds its model's threshold, the buckets are those of the catalog without upper rates |
| TierPricing.LargePromptsPayUpper | src/ClaudeUsageStore.cxx:425-448 | if every prompt exceeds a positive threshold wherever there are upper rates, the buckets are those of the catalog with the upper rates as standard ones and fast messages unpriced |
| TierPricing.FlatRates | src/ClaudeUsageStore.cxx:425-432 | without upper rates a message pays fast rates if fast and standard ones if not, and is unpriced iff there is no such entry |
| TierPricing.PromptGrows | src/ClaudeUsageStore.cxx:381-386 | the prompt grows one for one with input, cache reads and both kinds of cache writes |
| Costing.Sum | src/ClaudeUsageStore.cxx:525-540 | the totals over the buckets show the exact sums over all rows in the same way |
| Costing.SumsFit | src/ClaudeUsageStore.cxx:417-423 | the unchecked message and token sums stay within 64 bits for up to 9223372036 rows |
| BillingCycle.Gmtime | src/ClaudeUsageStore.cxx:153-157 | a day number and its date name each other |
| BillingCycle.YearStart | src/ClaudeUsageStore.cxx:164-171 | the month recursion agrees with the closed leap-year count of days before a year |
| BillingCycle.MonthIsCivil | src/ClaudeUsageStore.cxx:164-171 | every month begins on the day the closed civil-calendar formula gives |
| BillingCycle.CycleBounds | src/ClaudeUsageStore.cxx:149-181 | refused iff the reset day is outside 1 to 28 or the time negative; else the bounds are midnights of the reset day in consecutive civil months around the time |
| BillingCycle.CyclesTile | src/ClaudeUsageStore.cxx:149-181 | two moments share a cycle or lie in disjoint cycles |
| BillingCycle.NextCycleStartsAtEnd | src/ClaudeUsageStore.cxx:149-181 | the cycle at the end of a cycle starts there |
| Sexp.ReadQuoted | src/KiCadSchematicEditor.cxx:956-977 | a quoted atom ends at its first unescaped quote with escapes undone, or the whole text is refused as unterminated |
| Sexp.ReadBare | src/KiCadSchematicEditor.cxx:978-985 | a bare atom is the longest run without delimiters |
| Sexp.Parse | src/KiCadSchematicEditor.cxx:920-999 | ends on every text with the meaning given by a character-by-character reader: the first root, or the first error |
| SexpPrinting.EscapeSexp | src/KiCadSchematicEditor.cxx:55-67 | the loop computes the escaped text |
| SexpPrinting.StripKeeps | src/KiCadSchematicEditor.cxx:55-67 | a string survives printing iff it has no newline, carriage return or zero character |
| SexpPrinting.RoundTrip | src/KiCadSchematicEditor.cxx:920-999 | a printed tree parses back to itself if it nests at most 256 lists and is refused as too deep otherwise |
| Decimals.PrintedLengthReads | src/KiCadSchematicEditor.cxx:44-53 | a length of at most four decimals, printed and read, comes back exactly |
| Decimals.PrintedForm | src/KiCadSchematicEditor.cxx:44-53 | a printed length has no leading zeros and as few decimals as will do, but one |
| KeyedSets.KeyedSet.FindRoot | src/KiCadSchematicEditor.cxx:388-396 | an unseen key becomes a cluster of its own; the walk ends at the representative and keeps the partition |
| KeyedSets.KeyedSet.Unite | src/KiCadSchematicEditor.cxx:398-402 | adds exactly one union to the closure |
| NetlistBuilder.ChartWires | src/KiCadSchematicEditor.cxx:404-412 | joins the ends of every wire and notes its net at both |
| NetlistBuilder.ChartLabels | src/KiCadSchematicEditor.cxx:414-420 | adds every label's point and notes its name |
| NetlistBuilder.ChartPins | src/KiCadSchematicEditor.cxx:422-430 | adds every pin's point and notes its net |
| NetlistBuilder.NameClusters | src/KiCadSchematicEditor.cxx:432-439 | a cluster is named iff something names one of its points, and by such a name |
| NetlistBuilder.CountPoints | src/KiCadSchematicEditor.cxx:453-458 | more than one iff two different points share the cluster |
| NetlistBuilder.ListPin | src/KiCadSchematicEditor.cxx:446-473 | one pin's net and the made-up names follow the specification |
| LonePins.KeyIsNearest | src/KiCadSchematicEditor.cxx:226-230 | a point's key is its nearest hundredth of a millimetre in both coordinates |
| LonePins.OneKeyIsNear | src/KiCadSchematicEditor.cxx:226-230 | points with one key are less than 0.01 mm apart in both coordinates |
| LonePins.AloneIsUnlisted | src/KiCadSchematicEditor.cxx:382-486 | a pin without a net of its own, with no wire end, label or other pin within 0.01 mm, is in no net |
| LonePins.MadeUpOncePerCluster | src/KiCadSchematicEditor.cxx:446-473 | two clusters never share a made-up name |
| NetlistBuilder.BuildNetlist | src/KiCadSchematicEditor.cxx:382-486 | the netlist is that of the closure of the wires: own net, cluster name, a name made up once per shared nameless cluster, or unlisted; a pin nothing comes near is in no net |
| Schematic.NetsAgree | src/KiCadSchematicEditor.cxx:441-474 | the netlist does not depend on which representatives the union-find happens to choose |
| Schematic.SameNetlist | src/KiCadSchematicEditor.cxx:382-486 | with at most one name per cluster, circuits with the same points, connections, pins and names per cluster have the same netlist |
| SchematicText.SerializeSchematic | src/KiCadSchematicEditor.cxx:488-563 | prints the document part by part, exactly |
| SchematicTrees.PrintedSchematicReads | src/KiCadSchematicEditor.cxx:488-563 | the printed text parses to the schematic's tree |
| SchematicTrees.LibFine | src/KiCadSchematicEditor.cxx:494-518 | the library section prints each symbol once, with the kinds, names, numbers and grid positions of the pins of the first part that uses it |
| SchematicTrees.SnapsToNearest | src/EasyEdaConverter.cxx:186-191 | snapping goes to the nearest point of the 1.27 mm grid |
| SchematicReading.ExtractSchematic | src/KiCadSchematicEditor.cxx:232-379 | the loops over the root's children, properties, pins and coordinates collect what each of them adds |
| SchematicReading.ReadsBack | src/KiCadSchematicEditor.cxx:287-378 | extracting from that tree gives the parts, wires and labels back, wire nets turned into labels and power labels doubled |
| SchematicReading.BackReference | src/KiCadSchematicEditor.cxx:304-314 | the reference read back is that of the last extra property printed as one, or the part's own |
| SchematicReading.ReferenceSurvives | src/KiCadSchematicEditor.cxx:304-314 | a part keeps its reference iff no extra property prints as a reference or the last that does prints the same |
| SchematicRoundTrip.BackIsSameCircuit | src/KiCadSchematicEditor.cxx:488-563 | what is read back has the same points, connections and pins, no new names, every name still in its cluster, and parts under the references that prevail |
| SchematicRoundTrip.SaveAndReload | src/KiCadSchematicEditor.cxx:488-563 | print, parse and extract of a storable schematic succeed and keep the circuit up to those references |
| SchematicRoundTrip.NetlistsAroundSave | src/KiCadSchematicEditor.cxx:382-486 | the netlist after reloading is the one before saving with parts under the references that prevail, and the same netlist where every part keeps its own |
| SchematicRoundTrip.EntriesMove | src/KiCadSchematicEditor.cxx:304-314 | a pin with a net of its own moves from its part's reference to the one that prevails |
| SchematicRoundTrip.SaveTwiceNamed | src/KiCadSchematicEditor.cxx:1606-1617 | a part given an extra property Reference is listed under another name after saving and reloading |
| HookSession.TelemetryDb.RecordSessionStart | src/AgentTelemetryDb.cxx:418-441 | replaces the row with a running one whose counters are zero, except for excluded sessions |
| HookSession.TelemetryDb.TouchSession | src/AgentTelemetryDb.cxx:511-537 | changes status and end time of an existing row only |
| HookSession.TelemetryDb.UpdateSessionStats | src/AgentTelemetryDb.cxx:469-509 | overwrites the counters of an existing row only |
| HookSession.TelemetryDb.RecordSessionEnd | src/AgentTelemetryDb.cxx:443-467 | the same with the end time |
| HookSession.TelemetryDb.InsertEvent | src/AgentTelemetryDb.cxx:539-593 | a new key is stored and counted once in the row; a repeated key changes nothing |
| HookSession.TelemetryDb.InsertEventsBatch | src/AgentTelemetryDb.cxx:595-651 | a batch is the same as its events one by one |
| HookSession.BatchTwice | src/AgentTelemetryDb.cxx:595-651 | delivering a batch again changes neither table |
| HookSession.EventKeepsStep | src/AgentHookHandler.cxx:1242-1273 | the row an event leaves already has the counters the record moves on to, and its key is never a repeated one |
| HookSession.Hooks.constructor | src/AgentHookHandler.cxx:1045-1060 | the empty state is in step |
| HookSession.Hooks.SessionStart | src/AgentHookHandler.cxx:1176-1197 | record, row and events stay in step; status becomes idle, completed or stays running; the row is opened if new and touched |
| HookSession.Hooks.UserPromptSubmit | src/AgentHookHandler.cxx:1198-1212 | stays in step, with the row touched; prompts are cut to 500 characters and the first one is kept |
| HookSession.Hooks.PreToolUse | src/AgentHookHandler.cxx:1213-1217 | stays in step, with the row touched |
| HookSession.Hooks.PostToolUse | src/AgentHookHandler.cxx:1218-1273 | a remembered tool call changes no counter; any other is counted once in all three copies under a fresh key, with the whole new session table |
| HookSession.Hooks.Stop | src/AgentHookHandler.cxx:1274-1309 | a turn is counted once in all three copies, with the average turn time and the whole new session table |
| HookSession.Hooks.SessionEnd | src/AgentHookHandler.cxx:1310-1329 | stays in step; the row takes over counters, average turn time and end; a kept session is left alone |
| HookSession.RememberedIsDistinct | src/AgentHookHandler.cxx:1236-1241 | the remembered identifiers stay different, keep their order with the newest last, and only the 401st from the end is forgotten |
| HookSession.OthersStayInStep | src/AgentHookHandler.cxx:1164-1331 | an event of one session leaves every other session in step |
| ToolRegistry.Registry.FindBest | src/DynamicToolRegistry.cxx:149-163 | finds an offer iff there is one, the best by score then client, the first of equals |
| ToolRegistry.Registry.Recompute | src/DynamicToolRegistry.cxx:149-170 | the name's cache entry becomes right and no other entry changes |
| ToolRegistry.Registry.RegisterTools | src/DynamicToolRegistry.cxx:65-147 | the client's tools are replaced and the cache again maps exactly the offered names to their best offers |
| ToolRegistry.Registry.UnregisterClient | src/DynamicToolRegistry.cxx:172-192 | the reported names are exactly those that lost their last provider |
| ToolRegistry.CacheIsDetermined | src/DynamicToolRegistry.cxx:149-170 | the cache is a function of the offers, whatever the history |
| Base64Url.FeedDigit | src/CursorCollector.cxx:87-92 | the wrapping 32-bit accumulator always yields the byte and the pending bits of unbounded arithmetic |
| Base64Url.Decode | src/CursorCollector.cxx:50-95 | the decoded bytes of the accepted characters before the padding, or nothing |
| Base64Url.DecodeUndoesEncode | src/CursorCollector.cxx:50-95 | decoding the encoding of section 5 of RFC 4648, padded or not, returns the bytes |
| Base64Url.ForeignGivesNothing | src/CursorCollector.cxx:84-85 | a foreign character before the padding yields the empty result |

## Left out

- Floating point: costs, coordinates and distances of the board router are exact reals; `float` rounding is not modelled, and radii get the same 1e-9 guard as the code.
- Autoroute.Router.RouteNet: the consistency check after walking back (a seed reference that names no seed) cannot fail in the model and is not a branch of it.
- RoutedClearance.NoViolationsMeansClear: covers the grid steps and vias of bridges; the stubs between exact copper points and grid centres, and the short stub of a single-cell bridge, are not covered, nor is clearance from existing copper.
- Ownership.Scatter: the coverage tests are one arbitrary relation shared by both rasterisers, so differences of 32-bit geometry are not modelled.
- ConnectivityAudit.AuditNet: the order in which kinds of copper are united is one loop over all pairs; the touch tests are an arbitrary relation.
- Islands.BuildIslands: the rasters of elements and pour membership are given; cells are named by layer and position instead of a flat number; which of several end points a cell stands for (the last one found) is left open.
- Counters.CoverCounter.Begin: each counter has its own stamp generation, where the code shares one among the three; fewer than 65536 nets are assumed, as a 16-bit counter needs.
- SchematicRouter.FindPath: that the path is cheapest is not claimed, because the code's best cost ignores the direction of arrival; ties in the queue are broken arbitrarily.
- Autoroute.Router.RoutePasses: the reported numbers of rip-up passes and rerouted nets are not counted.
- TranscriptScan.ScanFile: opening a file that is not regular, the parser of a line and its limits are parameters; pruning old rows is not interleaved with polls.
- ExactlyOnce.Poller.Poll: the transcript is append-only; a transcript that shrinks restarts from its beginning in `ScanFile` but is not part of the run invariant.
- Costing.Aggregate: the grouping query is described by a predicate on its result; text ordering of days and models is reduced to groups of one bucket being adjacent, and the integer overflow error of the query is excluded by the bound of `SumsFit`.
- Costing.MulAddChecked: rates and token counts are taken to be non-negative, as the catalog and the store's validation make them.
- BillingCycle.CycleBounds: years beyond the C library's 32-bit range are not cut off.
- Decimals.PrintedLengthReads: lengths with more than four decimals, which the printer rounds, are not represented; signs, exponents and blanks the C library also reads are not modelled.
- NetlistBuilder.NameClusters: when a cluster carries several names, which of them comes first in key order is not modelled; net numbers, pin names and the JSON form are left out.
- SchematicReading.ExtractSchematic: the pins of a part printed without any come from a parameter, standing for the library symbol or the made-up pins; storable schematics have no such part.
- HookSession.Hooks.PostToolUse: every SQL statement is taken to succeed and no process stops between saving the record and updating the tables; other writers of the same session, the Cursor and Antigravity branches, and the fields of a record that no counter depends on are left out.
- HookSession.Hooks.SessionStart: a stored record that is not marked as started, which the modelled events never leave behind, is excluded by the invariant.
- ToolRegistry.Registry.RegisterTools: JSON arguments are parsed already; the sorted list of candidates for failover is not modelled.
- The board and schematic placement, annealing and legalisation, the analytic calculators, the OpenCL engine's buffers and devices, JSON reading, credential scrubbing, HTTP, subprocesses, file permissions and SQL migrations are not modelled.
- `connect_pins` and the other edits of `applySchematicEdits`, footprint and board files, and library search are not modelled.
