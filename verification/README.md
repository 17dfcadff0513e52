# Verified models of components of the Frogatto engine

Each component is modelled as the code works: classes and loops that change their state in place are proved
equal to functions on values, and what the component promises is proved about those functions, over every input,
every run or every reachable state. Nothing was executed.

**Rollback input** (`Wire`, `Peers`, `Controls`, `Rollback`, `Network`; `src/controls.cpp`). `Controls` is the
per-player history with its loops, `Peers` the same operations as functions on one value, `Wire` the bytes of a
packet. `Rollback` is about one peer and `Network` about up to eight of them over a network in which any packet
ever written may arrive anywhere, any number of times, in any order, or never. Peers start from the same cycle,
which is not negative; they take no local frames back; packets come from `write_control_packet` of a peer that has
read at least one frame; `user` strings hold no NUL. Agreement needs one thing more, that no packet which is processed
leaves a gap: it starts no later than the receiver's history or, once the receiver has heard its sender, no later than
right behind what it has confirmed. `NoGapIsExact` says that this is just what is needed at each packet. It holds
whenever no packet is clipped by the sender's own trimming (the test at line 578), and `ClippedPacketBreaksAgreement` is
a run in which it fails. The other results, acknowledgements among them, hold without it.

**Fortune's sweep** (`SweepTypes`, `EventQueue`, `BeachLine`, `SweepModel`, `SweepFacts`, `SweepRep`, `Voronoi`;
`src/VoronoiDiagramGenerator.cpp`). `right_of`, `intersect` and `dist` are arbitrary functions. `EventQueue` is the
table of lists of circle events, `BeachLine` the doubly linked list with its table of hints and reference counts.
`SweepModel` is the sweep on plain sequences, and `Voronoi` the main loop over the real structures, each event of
which is proved to be a step of the model. A whole sweep (`IsSweep`) carries along when each half is due, as the three
functions say; where no two events tie there is only one. `SweepFacts` is about every such sweep: its arcs, the order
of the sites of its edges when the sites are sorted, and its times. Records are named by addresses and their fields are maps over addresses,
so that recycling and stale pointers can be spoken about.

**Base64** (`Base64`; `src/base64.cpp`). Encoder, decoder and the buffer sizes. A line length of at least 1 is
required of the encoder: `TextFits` says that with less the text does not fit its buffer. `ResultLength` says for which
texts the decoder cannot size its result.

**Task pool** (`TaskPool`, `TaskOrder`; `src/background_task_pool.cpp`). A state machine over atomic steps, with the window between
the start of a thread and its entry in `task_map`, completions that submit, and calls of `pump` nested in
completions; and the pool itself, whose methods are runs of that machine whatever the workers do in between.

**Special characters** (`Utf8`, `Markup`; `src/cairo.cpp`, `src/utf8_to_codepoint.hpp`). The parser of names against a
grammar of what it accepts, and the escapes it takes back.

**Line breaking** (`TextLayout`; `src/cairo.cpp`). The greedy breaker for text, over an arbitrary measure. When not even
the first word fits an empty line, the code places its first character but moves the pen on by the measure of the
whole word; `Breakable` states this as it is, and `CutExactly` when it happens. `LayoutText` gives the reason for which
each line of output begins.

**Innermost object** and **pixel search** (`ObjectFinder`, `src/code_editor_widget.cpp`; `PixelSearch`, `PixelTurns`,
`src/animation_preview_widget.cpp`). In the search a pixel whose first cost is beyond the limit is never queued, even
when a cheaper way turns up. `CompleteOnlyWithoutCost` and `CompleteIfItSuffices` say when it misses nothing all the same.

`Common` holds what several modules use.

`dafny verify dfyconfig.toml` checks everything.

## Model

| member | source | states |
|---|---|---|
| Wire.Int32RoundTrip | src/controls.cpp:423-425 | a 32-bit field written in network order is read back, for every signed value |
| Wire.FramesInjective | src/controls.cpp:586-591 | runs of frames of the same length with the same bytes are the same run: the key byte, text and NUL layout delimits itself |
| Wire.HeaderFields | src/controls.cpp:411-461 | slot, cycle, checksum, acknowledgement and frame count are found at the offsets the reader uses, the frames follow, and the last byte is the NUL the reader insists on, also when there is no frame |
| Wire.EncodeInjective | src/controls.cpp:548-591 | no two packets have the same bytes |
| Peers.ScanMinIsMinimum | src/controls.cpp:181-194 | over non-negative entries both `highest_confirmed` scans give the minimum of the entries not skipped, and -1 only when there is none |
| Peers.ScanMinFound | src/controls.cpp:121-130 | whatever the entries are, the scan gives one of them or -1 |
| Peers.FramesToWrite | src/controls.cpp:575-580 | where the others hold no more than there is, the frames to write begin with the first that somebody lacks, or with the oldest kept if that is later |
| Peers.RewoundStep | src/controls.cpp:269-275 | taking back frames one at a time is cutting the history back |
| Peers.FirstDifferenceUnique | src/controls.cpp:513-520 | the cycle marked by a packet is pinned down by its defining property alone |
| Peers.SplicedStep | src/controls.cpp:512-527 | storing one frame after another gives the history with the whole run put in |
| Controls.ControlState.StartLevel | src/controls.cpp:196-213 | all histories and confirmations are reset for the level; `first_invalid_cycle_var` is not, as in the code |
| Controls.ControlState.ReadLocalControls | src/controls.cpp:287-357 | the in-place loops give the state of ReadLocal: frame appended, others carried along, oldest half dropped at the limit |
| Controls.ControlState.DropOldestHalf | src/controls.cpp:349-356 | exactly half of the local history goes from every player, and every player has more than that, so the check at line 353 holds |
| Controls.ControlState.UnreadLocalControls | src/controls.cpp:359-367 | the last local frame and one confirmed cycle are taken back, or nothing if there is none |
| Controls.ControlState.ReadUntil | src/controls.cpp:257-276 | terminates with the local history ending just behind cycle n, with the input of each cycle recorded or the history cut back, also across trims |
| Controls.ControlState.OurHighestConfirmed | src/controls.cpp:121-130 | the loop computes the scan over all players |
| Controls.ControlState.TheirHighestConfirmed | src/controls.cpp:181-194 | the loop computes the scan over all players but the local one |
| Controls.ControlState.MarkValid | src/controls.cpp:611-614 | only the mark is cleared |
| Controls.ControlState.GetControlStatus | src/controls.cpp:369-393 | seven released keys before the history begins, otherwise the bits and the text of the frame of cycle - 1 - delay |
| Controls.ControlState.WriteControlPacket | src/controls.cpp:548-594 | what is appended to the buffer is the encoding of slot, last cycle, checksum, our confirmation and the frames the others lack; looking up the checksum is the only side effect |
| Controls.ControlState.ReadControlPacket | src/controls.cpp:400-546 | packet round trip: on the bytes of any packet, also one without frames, the effect on all state is that of Receive of that packet, and when it is read to its end reading stops exactly at the end of the buffer (line 543); any other bytes leave the other slots alone, and no confirmation moves without acceptance |
| Controls.ControlState.ReadHeader | src/controls.cpp:404-466 | for any bytes of at least 13, a packet goes on just if its slot is another player of the level, it is not out of order and the last byte is NUL; and the acknowledgement is taken, even without the NUL, if it is higher; the count is looked at only if the first two hold |
| Controls.ControlState.ReadRun | src/controls.cpp:468-541 | the frames already known are skipped, the others corrected, the tail carried on and the least wrong cycle marked; nothing happens for cycles already dropped; where no frame is claimed only the tail is carried on, from the packet's cycle if that is kept |
| Controls.NextFrame | src/controls.cpp:492-502 | the frame parsed where a run begins is the first of the run and the rest of the run follows |
| Controls.ReadsInsidePacket | src/controls.cpp:530-541 | on the bytes of a packet the reader stays inside the history if and only if it is not an accepted packet without frames of the cycle right before a history that is not empty |
| Peers.FramelessReadsBefore | src/controls.cpp:530-538 | a peer that has just dropped its first cycle, and a packet without frames on which line 536 reads before the history |
| Rollback.TrimmingIsInvisible | src/controls.cpp:349-356 | for every kept cycle and every player `get_controlStatus` answers the same before and after a trim, and the erase is within every history |
| Rollback.ReadKeepsFrames | src/controls.cpp:333-356 | reading local input changes no kept frame of any player |
| Rollback.ReadManyRecords | src/controls.cpp:257-267 | reading ahead records exactly what was held at each cycle that is kept, however many trims happen on the way |
| Rollback.ReadLength | src/controls.cpp:349-356 | a history that reaches the limit loses the older half, rounded down, and starts later by as much; the rest stays in order |
| Rollback.RewoundKeeps | src/controls.cpp:269-275 | going back to a cycle leaves all earlier frames that were kept as they were, and everything of the others |
| Rollback.StatusIsFrame | src/controls.cpp:369-393 | a frame whose keys are the sum of 2^n over seven flags is what is answered for its cycle + 1 + delay: just these flags, and its text |
| Rollback.LocalInputComesBack | src/controls.cpp:306-389 | whatever has been read and received since, as long as the frame read at a cycle is kept the answer for that cycle + 1 + delay is the flags and text that went into it |
| Rollback.NothingHeldBefore | src/controls.cpp:369-381 | up to cycle start + delay no key is answered to be held |
| Rollback.ProcessedExactly | src/controls.cpp:404-508 | a packet is processed exactly if it is of another player, not older than what is confirmed, and its first frame or the confirmed cycle is not before the history; then its last cycle is confirmed |
| Rollback.ReceiveAt | src/controls.cpp:468-541 | the frame of every kept cycle after a packet that is processed: the packet's from its first or the confirmed cycle on, its last one carried on, the old one, or the first one over a gap |
| Rollback.ReceiveMark | src/controls.cpp:513-520 | the mark is the least received cycle whose frame changed; nothing before it changed |
| Rollback.ReceiveMarksItsChanges | src/controls.cpp:487-541 | a changed frame is at or behind the marked cycle and a newly marked cycle did change, because all frames from the confirmed one on were equal |
| Rollback.RunKeepsCover | src/controls.cpp:336-347 | over any run of reads and packets: all frames from the confirmed one on stay equal, and changed frames stay behind the mark |
| Rollback.RollbackComplete | src/controls.cpp:487-541 | from a new level, across any run, after the last `mark_valid`: whatever frame the game saw, also one guessed since, and that has changed by now, is at a cycle >= `first_invalid_cycle()`, which is not -1 |
| Network.NextInv | src/controls.cpp:400-594 | every step of every peer, over a losing, repeating and reordering network, keeps: own history is what was entered, confirmed cycles exist, acknowledgements are not ahead, packets carry the truth |
| Network.AcksNeverAhead | src/controls.cpp:181-194 | in every reachable state `remote_highest_confirmed[r]` at s is at most `highest_confirmed[s]` at r; no assumption on trimming |
| Network.FramesAreWritten | src/controls.cpp:575-580 | a peer that has read a frame always has at least one frame to write |
| Network.WrittenFromFirstLacking | src/controls.cpp:555-591 | from the invariant: the packet starts with the least cycle acknowledged by any of the others, or with the oldest kept if that is later, and with the oldest kept if there are no others; it acknowledges the least cycle confirmed of anybody |
| Network.WrittenToTheEnd | src/controls.cpp:555-591 | it ends with the last local frame, holds just the frames from its first on, and names slot and checksum |
| Network.UnclippedLeavesNoGap | src/controls.cpp:575-580 | a packet that is not clipped starts at or before the confirmed cycle of every receiver |
| Network.Agreement | src/controls.cpp:400-594 | in every reachable state, once r has processed a packet of s, every kept frame up to the confirmed cycle is what s entered at that cycle, if no packet that was processed left a gap; lost or refused packets do not matter |
| Network.UnclippedRunsHaveNoGaps | src/controls.cpp:575-580 | if no packet is clipped when it is written, no packet of the run leaves a gap, whatever is lost, repeated or reordered |
| Network.PeersShareOneHistory | src/controls.cpp:487-541 | any two peers hold the same frame of a third for every cycle both have confirmed and keep |
| Network.NoGapIsExact | src/controls.cpp:468-541 | processing a packet goes on agreeing with everything its sender may have entered if and only if it starts no later than the receiver's history, or the receiver has heard the sender and the packet starts no later than right behind the confirmed cycle |
| Network.GapMisleads | src/controls.cpp:522-527 | over any gap there is an input that the sender may have entered and that the receiver gets wrong |
| Network.ClippedPacketBreaksAgreement | src/controls.cpp:577-580 | a run of two peers in which a clipped packet leaves a gap, by the condition of NoGapIsExact, and a confirmed frame is wrong |
| Network.SentPacketsFitTheWire | src/controls.cpp:555-591 | in runs of fewer than 2^31 cycles every packet ever sent fits its fields |
| EventQueue.WholeIsSorted | src/VoronoiDiagramGenerator.cpp:532-549 | sorted buckets of rising strips are one sequence sorted by (ystar, x) |
| EventQueue.InItsBucket | src/VoronoiDiagramGenerator.cpp:569-578 | a queued node is in the bucket its key is hashed to |
| EventQueue.EventQueue.PQinsert | src/VoronoiDiagramGenerator.cpp:532-549 | the node goes into the one sorted sequence behind just those that are strictly before it, so in front of those with the same key |
| EventQueue.PlaceInWhole | src/VoronoiDiagramGenerator.cpp:539-545 | the place where the loop over one bucket stops is the place in the whole queue |
| EventQueue.EventQueue.PQdelete | src/VoronoiDiagramGenerator.cpp:552-567 | removes exactly this node from the sequence if it has a vertex, and always finds it |
| EventQueue.EventQueue.FindNode | src/VoronoiDiagramGenerator.cpp:558-560 | the unguarded search loop ends at the node looked for |
| EventQueue.EventQueue.PQ_min | src/VoronoiDiagramGenerator.cpp:586-594 | the search for a non-empty bucket ends, and gives an event that no queued event comes before |
| EventQueue.EventQueue.PQextractmin | src/VoronoiDiagramGenerator.cpp:596-604 | takes the first element of the sequence and leaves the rest |
| EventQueue.EventQueue.PQbucket | src/VoronoiDiagramGenerator.cpp:569-578 | the strip of the key, clamped to the table; `PQmin` goes down to it if need be |
| EventQueue.EventQueue.ContentsSorted | src/VoronoiDiagramGenerator.cpp:532-604 | at any time the whole queue is sorted |
| BeachLine.BoundaryIsLinearScan | src/VoronoiDiagramGenerator.cpp:232-245 | where `right_of` is monotone along the line, any boundary is the one the plain scan from the left end finds |
| BeachLine.LastHint | src/VoronoiDiagramGenerator.cpp:197-205 | with no interior hints left, no bucket points at the node, so freeing it is safe |
| BeachLine.DropHint | src/VoronoiDiagramGenerator.cpp:201-205 | pruning a bucket lowers the count of a deleted node that has hints, and frees it just with the last |
| BeachLine.HintOk | src/VoronoiDiagramGenerator.cpp:247-256 | re-pointing a bucket keeps `ELrefcnt` the number of interior buckets at every node |
| BeachLine.BeachLine.constructor | src/VoronoiDiagramGenerator.cpp:145-166 | two sentinels linked to each other, at the outermost buckets |
| BeachLine.BeachLine.HEcreate | src/VoronoiDiagramGenerator.cpp:169-179 | a node that is neither in the line, nor deleted with hints left, nor free |
| BeachLine.BeachLine.ELinsert | src/VoronoiDiagramGenerator.cpp:182-188 | the doubly linked list with the node put in behind lb |
| BeachLine.BeachLine.ELdelete | src/VoronoiDiagramGenerator.cpp:263-268 | the list without the node, which is marked; hints may remain |
| BeachLine.BeachLine.ELgethash | src/VoronoiDiagramGenerator.cpp:191-206 | never gives a deleted or recycled node; the outermost buckets always give one |
| BeachLine.BeachLine.NearestHint | src/VoronoiDiagramGenerator.cpp:219-230 | the endless search over the buckets ends |
| BeachLine.BeachLine.ELleftbnd | src/VoronoiDiagramGenerator.cpp:208-258 | for any `right_of`: a node that is the left end or has the point to its right, whose right neighbour is the right end or has not; whatever the table holds |
| SweepModel.SiteStepInv | src/VoronoiDiagramGenerator.cpp:1136-1160 | a site event, at any place and with any answers of `intersect`, keeps arc chain, open ends, events and clipping |
| SweepModel.CircleStepInv | src/VoronoiDiagramGenerator.cpp:1161-1211 | so does a vertex event, also when the two sites are swapped (`pm = re`) |
| SweepModel.SiteStepLink | src/VoronoiDiagramGenerator.cpp:1139-1153 | neighbours agree on the region between them after a site event |
| SweepModel.CircleStepLink | src/VoronoiDiagramGenerator.cpp:1163-1194 | and after a vertex event, at every place of the line, with the bottom site outermost |
| SweepModel.SiteStepEnd | src/VoronoiDiagramGenerator.cpp:313-348 | an edge lacks an end exactly as long as that half is in the line, after a site event |
| SweepModel.CircleStepEnds | src/VoronoiDiagramGenerator.cpp:466-499 | the same after a vertex event, with the edges that got both ends clipped once |
| SweepModel.CircleStepEvents | src/VoronoiDiagramGenerator.cpp:1179-1210 | after a vertex event every queued half has a right neighbour on another edge |
| SweepModel.EdgeLifetime | src/VoronoiDiagramGenerator.cpp:466-499 | an edge is clipped and given back at most once, and just when neither half is in the line |
| SweepModel.EveryEdgeIsClipped | src/VoronoiDiagramGenerator.cpp:1215-1220 | every edge ever made is clipped in the end, and twice just if both halves survive |
| SweepModel.EveryRun | src/VoronoiDiagramGenerator.cpp:1126-1213 | in every reachable state of every run the invariant holds, and events taken + halves in the line = 3 * sites met, which bounds the loop |
| SweepModel.EventHasNeighbour | src/VoronoiDiagramGenerator.cpp:1163-1168 | the half of a vertex event always has a non-sentinel right neighbour of another edge |
| Voronoi.VoronoiDiagramGenerator.Bisect | src/VoronoiDiagramGenerator.cpp:313-348 | a recycled or new record becomes the edge of the two sites with both ends open |
| Voronoi.VoronoiDiagramGenerator.Intersect | src/VoronoiDiagramGenerator.cpp:351-366 | for a node and its right neighbour: nothing for a sentinel or two edges with the same second site, and otherwise what the geometry says of the two halves |
| Voronoi.VoronoiDiagramGenerator.LeftRegion | src/VoronoiDiagramGenerator.cpp:282-288 | the region to the left, the bottom site at the ends |
| Voronoi.VoronoiDiagramGenerator.RightRegion | src/VoronoiDiagramGenerator.cpp:290-297 | the region to the right, the bottom site at the ends |
| Voronoi.VoronoiDiagramGenerator.EndpointOfThree | src/VoronoiDiagramGenerator.cpp:466-499 | the end of the new edge is noted, and those of the other two that are complete are clipped once and join the free list, with no half left that refers to them |
| Voronoi.VoronoiDiagramGenerator.SiteEvent | src/VoronoiDiagramGenerator.cpp:1136-1160 | the pointer manipulation of a site event is one SiteStep of the model, at the place `right_of` asks for and with the answers of `intersect`; the left one of each new pair of neighbours that meet becomes due as far above the meeting as this is from the site, and no other time changes |
| Voronoi.VoronoiDiagramGenerator.CircleEvent | src/VoronoiDiagramGenerator.cpp:1161-1211 | the pointer manipulation of a vertex event is one CircleStep of the model, with the answers of `intersect`; the two halves that end are due no more, and those that meet a new neighbour become due by the distance from the lower site |
| Voronoi.VoronoiDiagramGenerator.RetirePair | src/VoronoiDiagramGenerator.cpp:1163-1180 | the first event of the queue is extracted, its vertex noted at the half it belongs to and at the next, both nodes leave line and queue, and only these two are due no more |
| Voronoi.VoronoiDiagramGenerator.JoinRegions | src/VoronoiDiagramGenerator.cpp:1181-1210 | the new edge between the outer regions, its surviving half, and the events it makes where the halves meet |
| Voronoi.VoronoiDiagramGenerator.NextEvent | src/VoronoiDiagramGenerator.cpp:1129-1212 | one whole step: of the next site and all that is due the first is taken, a site only if it comes before every event, an event only if none and no site comes before it, at its own vertex; state and due times become what the geometry says; and nothing is done only when nothing is left |
| Voronoi.VoronoiDiagramGenerator.SweepOver | src/VoronoiDiagramGenerator.cpp:1108-1225 | for any geometry the sweep ends and is a sweep as the geometry decides it: from nothing due, each step takes the first of the next site and what is due, a site falls where `right_of` says, and every time that is due comes from where `intersect` and `dist` put it, until no site and no event is left; every edge is clipped as often as its surviving halves ask for |
| SweepModel.SitesInOrder | src/VoronoiDiagramGenerator.cpp:1125-1160 | a sweep meets the sites in the order given, none left out |
| SweepModel.StepIsDetermined | src/VoronoiDiagramGenerator.cpp:1129-1212 | if no two events are due at once and a site has one place to fall, the geometry decides on the step, the state after it and all times that are due then |
| SweepModel.WholeSweepIsDetermined | src/VoronoiDiagramGenerator.cpp:1108-1225 | under these conditions any two sweeps of the same sites and geometry are the same, states, steps and due times, from the first to the last |
| SweepModel.JoiningEdge | src/VoronoiDiagramGenerator.cpp:1183-1194 | the edge made at a vertex names the lower of the two regions first, and the half put in has the left one to its left; it is a right half exactly if the left one is strictly higher, and the other end is the vertex |
| SweepFacts.HalvesSeparateArcs | src/VoronoiDiagramGenerator.cpp:282-297 | each half has the arc before it to its left and the arc behind it to its right, and the outermost arcs are those of the bottom site |
| SweepFacts.ArcsAfterSite | src/VoronoiDiagramGenerator.cpp:1136-1153 | a site splits the arc it falls on, with its own in between |
| SweepFacts.ArcsAfterVertex | src/VoronoiDiagramGenerator.cpp:1163-1194 | a vertex takes out the arc between the two halves, and no other |
| SweepFacts.LowerSiteFirst | src/VoronoiDiagramGenerator.cpp:1183-1190 | over any sweep of sites sorted by height: the first site of every edge is not above the second; a left half in the line has the lower region to its left and a right half to its right, strictly if a vertex made the edge |
| SweepFacts.DueTimesAreMeetings | src/VoronoiDiagramGenerator.cpp:1146-1211 | over any such sweep: what a half is due for is where it meets a half of another edge with another second site, at the height of this plus its distance to the new site or to the lower site of the edge made |
| SweepFacts.NoMeetingIsMissed | src/VoronoiDiagramGenerator.cpp:1146-1211 | over any sweep: wherever two neighbours in the line meet, the left one is due, there |
| Base64.TablesMatch | src/base64.cpp:34-43 | the two tables are inverse to each other on all 64 values |
| Base64.AlphabetIs | src/base64.cpp:34-35 | the alphabet is that of RFC 4648, section 4 |
| Base64.OnlyTheAlphabet | src/base64.cpp:155-161 | what the decoder takes for base64 is just this alphabet |
| Base64.BlockIsNumber | src/base64.cpp:61-71 | the characters of a block are the digits in base 64 of the number that its bytes are in base 256, filled up with zeros |
| Base64.LinesAreEven | src/base64.cpp:84-102 | there is a line break after every full line and nowhere else, and a full line is the given length rounded up to whole blocks |
| Base64.TextFits | src/base64.cpp:50-59 | for all data the text, with its line breaks, fits the precomputed size if and only if a line has room for a character; and its exact length |
| Base64.TextFillsExactly | src/base64.cpp:84-102 | it fills the buffer, whatever the data, if and only if 4 divides the line length |
| Base64.B64Encode | src/base64.cpp:84-102 | writes the text and nothing outside its buffer; what is left is zero |
| Base64.EncodeBlockInto | src/base64.cpp:61-71 | four characters for one to three bytes, padded, at the write position |
| Base64.B64Decode | src/base64.cpp:145-173 | the loop is the character-by-character decoder, and never writes outside its buffer, for any input |
| Base64.ForeignCharactersAreSkipped | src/base64.cpp:155-161 | characters outside the alphabet make no difference, wherever they stand |
| Base64.RoundTrip | src/base64.cpp:84-173 | decoding what was encoded gives the data back, for all data, all line lengths, and any zeros left in the buffer |
| Base64.DecodeCounts | src/base64.cpp:152-170 | what the decoder has counted after any characters: three for each whole block less the padding in it |
| Base64.ResultLength | src/base64.cpp:145-173 | for all texts: the count is negative, so that no result can be sized, if and only if the whole blocks of characters that are not skipped hold more padding than bytes; otherwise the length is the difference |
| Base64.OnlyPaddingHasNoLength | src/base64.cpp:164-171 | four padding characters are such a text |
| TaskPool.DoInv | src/background_task_pool.cpp:55-99 | every atomic step of workers and of the submitting and pumping thread keeps the accounting of every task id |
| TaskPool.TopIsThere | src/background_task_pool.cpp:95-98 | what `pump` is about to look up is in `task_map`, so no default entry is ever made |
| TaskPool.CalledAtMostOnceAfterItsJob | src/background_task_pool.cpp:55-99 | under every interleaving no completion is called twice, each comes after its own job, is the one submitted with it, and the look-up never fails |
| TaskPool.WaitingAreDistinct | src/background_task_pool.cpp:87-98 | an id awaiting `pump` waits once, and its task is in `task_map` or just being submitted; ids taken by a `pump` are always in the map |
| TaskPool.EmptyMapMeansAllCompleted | src/background_task_pool.cpp:68-73 | an empty `task_map` with no call under way means that every submitted task has been completed exactly once |
| TaskPool.AfterAnyRunEmptyMapMeansAllCompleted | src/background_task_pool.cpp:68-73 | the same for every reachable state |
| TaskPool.ErasedStays | src/background_task_pool.cpp:97 | a task that has been erased never comes back |
| TaskOrder.HandledInOrderOfReport | src/background_task_pool.cpp:87-98 | a `pump` handles what it has taken in the order in which the jobs reported, and one called by a completion takes only later reports |
| TaskOrder.FirstReportedIsCalled | src/background_task_pool.cpp:95-97 | the completion called belongs to the first report of all that this `pump` has still to handle |
| TaskPool.Pool.RunTask | src/background_task_pool.cpp:55-60 | job, then report under the lock, as two separate steps |
| TaskPool.Pool.Submit | src/background_task_pool.cpp:75-85 | the task is in the map under a fresh id, though its worker may have finished before; completions under way are undisturbed |
| TaskPool.Pool.Pump | src/background_task_pool.cpp:87-99 | everything reported before the call has been completed and erased afterwards, also when completions submit or pump |
| TaskPool.Pool.Shutdown | src/background_task_pool.cpp:68-73 | once all jobs end and completions submit no more, the loop ends with every task completed exactly once |
| Utf8.FirstOfEncoded | src/utf8_to_codepoint.hpp:191-217 | what `codepoint_to_utf8` writes is read back by the iterator, with the right width, for every code point |
| Utf8.EncodedAsInTheStandard | src/utf8_to_codepoint.hpp:191-217 | the encoding is the shortest, with the marks and the bits in each byte as in section 3 of RFC 3629 |
| Utf8.EncodedIsRead | src/utf8_to_codepoint.hpp:59-182 | the encoding of any code points is accepted, and the iterator finds just these |
| Markup.ParseSpecialChars | src/cairo.cpp:692-728 | the loop with its iterators computes Parse, or stops at the name that is not in the table |
| Markup.PrintIsParsed | src/cairo.cpp:701-727 | every sequence of literal bytes and names from the table, with any tail that has no semicolon, is read as what it means |
| Markup.ParsedIsPrinted | src/cairo.cpp:701-727 | and only such text is accepted |
| Markup.EscapeText | src/cairo.cpp:2017-2035 | the loop computes Escape |
| Markup.EscapeRoundTrip | src/cairo.cpp:2017-2035 | for every text, parsing what was escaped gives the text back and never misses a name |
| Markup.EscapedHasNoTags | src/cairo.cpp:2022-2032 | escaped text holds neither `<` nor `>` |
| Markup.EscapeInjective | src/cairo.cpp:2022-2032 | different texts have different escapes |
| Markup.LookUpFindsEntry | src/cairo.cpp:681-718 | each of the eight names is found as its own entry |
| Markup.NamesMean | src/cairo.cpp:681-718 | what each of the eight names stands for, byte by byte |
| Markup.EscapeCharIs | src/cairo.cpp:2022-2032 | the three characters with a name of their own become it, and no other is changed |
| Markup.EscapeLeavesOthers | src/cairo.cpp:2022-2032 | text without these three is left alone |
| TextLayout.SplitLines | src/string_utils.cpp:158-187 | with no flags, the loop computes Split |
| TextLayout.SplitIsJoined | src/string_utils.cpp:158-187 | the pieces hold no separator and give the text when joined by it |
| TextLayout.Extend | src/cairo.cpp:953-970 | takes in word by word, as Taken says, and keeps the measure of what was taken |
| TextLayout.TakenIsGreedy | src/cairo.cpp:953-991 | what is taken in further fits, ends with a word, and one more word would not fit |
| TextLayout.CutExactly | src/cairo.cpp:939-993 | a word is cut if and only if it may be broken, has more than one character, and fits neither behind the pen nor on the line below |
| TextLayout.PlaceFragment | src/cairo.cpp:921-1080 | where the next fragment stands, how wide its line is, what text it takes and what the output and the pen are then: on a new line just if its first word does not fit, and there from its first character; it fits or is a single character at x = 0, one more word would not have fitted, and the pen moves on by its measure, or by that of its first word if it was cut |
| TextLayout.NothingFits | src/cairo.cpp:939-993 | when no part of what is left fits on an empty line, one character is put at x = 0, and the pen moves on by the whole word |
| TextLayout.CutWord | src/cairo.cpp:939-1078 | a word of two characters on a narrow line, of which the first moves the pen by two |
| TextLayout.PlaceLine | src/cairo.cpp:921-1081 | the loop terminates, its fragments tile the line, and each new line of output begins with a word that did not fit |
| TextLayout.LayoutText | src/cairo.cpp:847-1087 | every line of every item is tiled by well placed fragments, and lines of output are filled from left to right without gaps; they begin, in order, at each line of an item but its first, and else only with a run of unbroken items that leaves the line or with a word that does not fit behind all that stands before it; each is aligned as the item of its first fragment |
| TextLayout.LeavesLine | src/cairo.cpp:895-906 | the widths of the unbroken items up to the next that may break, summed as an integer, go beyond the line |
| TextLayout.EmptyLines | src/cairo.cpp:939-951 | a line is left empty, other than in front of a further line of an item, only before a word or a run of items that is wider than the line |
| TextLayout.LinesStepDown | src/cairo.cpp:872-947 | each line of output stands below the one before by the height of the highest font of the items begun on that one, times the scale, and its width changes by as much times `width_delta`; all fragments of a line share height and width |
| TextLayout.LaterLinesAreBelow | src/cairo.cpp:872-947 | with no negative heights, a fragment on a later line is lower than any on an earlier line by at least the scaled height of the font of that |
| TextLayout.NoTextIsLost | src/cairo.cpp:847-1087 | the fragments of a layout, put together, are the text of all items without its line breaks |
| TextLayout.AfterFirstAre | src/cairo.cpp:907-918 | the places for which a line is begun are just the lines of the items but the first of each |
| TextLayout.TilesAreTheLine | src/cairo.cpp:1065-1080 | the fragments of a source line concatenate to the line |
| TextLayout.UnbrokenIsOne | src/cairo.cpp:924-926 | a line of an item that must not break is one fragment, at x = 0 if it does not fit elsewhere |
| TextLayout.OverlongLinesAreSingleCharacters | src/cairo.cpp:939-993 | where no measure is negative, a line of output goes beyond its width only if it is one single character |
| TextLayout.LeftToRight | src/cairo.cpp:1065-1078 | fragments on one line do not overlap |
| ObjectFinder.GetObjectAt | src/code_editor_widget.cpp:490-534 | an object is found if and only if the cursor is in a matched pair closed before any brace too many, so in any matched pair if there is none; with tokens in order it is the unique innermost pair |
| ObjectFinder.TopMatches | src/code_editor_widget.cpp:504-509 | the top of the stack is the one brace that a closing brace matches, for the counting definition of matching |
| ObjectFinder.PairsNest | src/code_editor_widget.cpp:497-517 | matched pairs do not cross |
| ObjectFinder.FirstIsInnermost | src/code_editor_widget.cpp:509-512 | the pair closed first around the cursor is enclosed by every other pair around it |
| ObjectFinder.UnderflowHidesObjects | src/code_editor_widget.cpp:505-507 | after a closing brace too many, an object around the cursor is not found |
| PixelSearch.NeighboursAre | src/pathfinding.cpp:187-230 | just the up to eight adjacent pixels inside the surface |
| PixelSearch.PathCostIs | src/animation_preview_widget.cpp:96-104 | a step costs as many as there are background pixels at its two ends |
| PixelSearch.Visit | src/animation_preview_widget.cpp:145-168 | a neighbour is discovered, brought nearer or left alone, and the throw at line 166 is never reached |
| PixelSearch.NearerInv | src/animation_preview_widget.cpp:160-164 | giving an expanded pixel a nearer parent keeps the parent links acyclic and no cheaper than their steps |
| PixelSearch.ExpandInv | src/animation_preview_widget.cpp:138-144 | a pixel taken from the queue has not been expanded before |
| PixelSearch.AfterIsWhole | src/animation_preview_widget.cpp:137-169 | after any number of turns: links, costs, queue and reported pixels are in order, all neighbours of what was expanded have been looked at, and what has been dropped is within its bounds |
| PixelSearch.Search | src/animation_preview_widget.cpp:129-169 | terminates in a state of those turns with an empty queue; no pixel is reported twice, and all are inside |
| PixelTurns.TurnIs | src/animation_preview_widget.cpp:137-169 | one turn takes the front of the queue and reports it if within the limit; each pixel next to it takes the cost it is offered if this is less than its own; new ones within the limit go to the end of the queue; all else stays |
| PixelTurns.CostIsLeastOffer | src/animation_preview_widget.cpp:145-168 | after any number of turns a pixel other than the start has a node exactly if it was offered a cost, and has the least offer and the first pixel that made it as parent |
| PixelTurns.FirstComeFirstTaken | src/animation_preview_widget.cpp:138-144 | what waits is taken after as many turns as there are pixels in front of it |
| PixelTurns.ReportedAsTaken | src/animation_preview_widget.cpp:141-144 | what is reported is what was taken within the limit, in this order |
| PixelSearch.WayIsReal | src/animation_preview_widget.cpp:145-168 | from every pixel with a node, parents lead to the start through adjacent pixels, at a cost of at most its G |
| PixelSearch.ReportedAreWithinCost | src/animation_preview_widget.cpp:141-159 | every reported pixel is joined to the start by a way within the limit; and the reported pixels are just those with a way past all that was beyond the limit when first seen |
| PixelSearch.CompleteIfItSuffices | src/animation_preview_widget.cpp:106-169 | with no cost allowed, or no background on the surface, or a limit of at least 2 * (width * height - 1), a pixel is reported if and only if a way leads there within the limit |
| PixelSearch.PixelsWithinCostAreMissed | src/animation_preview_widget.cpp:154-159 | for every limit of at least 1 a surface on which a pixel within the limit is not reported, however the search ends |
| PixelSearch.CompleteOnlyWithoutCost | src/animation_preview_widget.cpp:154-159 | the search reports just the pixels within the limit, on every surface and from every place, if and only if the limit is at most 0 |
| PixelSearch.BoundingBox | src/animation_preview_widget.cpp:174-181 | the corners enclose the reported background pixels and touch one on each side |
| PixelSearch.BorderRect | src/animation_preview_widget.cpp:106-185 | the early answers just outside the surface or on the background; otherwise the box of what the search reports |

## Left out

- Floating point: coordinates, measures and heights are real numbers; rounding is not modelled.
- Overflow of cycle numbers: cycles are unbounded; `SentPacketsFitTheWire` says from where on 32 bits would not do.
- Controls.ControlState.ReadControlPacket: excludes 13 to 16 bytes if the source comes to read the count behind them, and bytes that claim no frames just where it then reads before the history (`ReadsInside`); for bytes that are no packet only what stays unchanged is stated, and counts so far below zero that the first cycle overflows are not modelled.
- Controls.ControlState.GetControlStatus: the index is required to be inside the history, as the source asserts it.
- Controls.ControlState.ReadLocalControls: keyboard, mouse and key locks are an arbitrary frame given as a parameter.
- Network.Agreement: needs that no packet that is processed leaves a gap; the exact condition and a failing run are proved.
- `control_backup_scope`, `set_delay`, packet counters, logging and the limit of 1024 checksums; checksums may change arbitrarily.
- The shape of the Voronoi diagram: the formulas of `right_of`, `intersect`, `bisect` and `clip_line`, `getSitePoints` and the output calls.
- Reference counts of sites (`ref`, `deref`) and the recycling of vertices: vertices are values.
- Allocation in blocks and `cleanup`: free lists are sets of addresses.
- Voronoi.VoronoiDiagramGenerator.SweepOver: sites are taken in the order given; that they are sorted is used in `SweepFacts` alone.
- SweepModel.StepIsDetermined: which of two events with the same key is taken first is not part of a step of the model; `PQinsert` says that it is the one that came later.
- Base64.B64Encode: requires a line length of at least 1; `TextFits` says what fails otherwise.
- Base64.B64Decode: a negative count, which the source passes to `resize`, is the result LengthError.
- TaskPool.Pool.Shutdown: ends because every job ends and completions submit finitely often, as a finite script of what they do says; without that the source's loop does not end either.
- Exceptions thrown by jobs or completions, and overflow of `next_task_id`.
- `utf8_to_markup`, which emits numeric names that the parser does not know.
- TextLayout.LayoutText: text only, without svg and images; fragment widths and the vertical placement after line 1089 are not part of this model.
- TextLayout.PlaceFragment: the two inner loops that take in further words are one method, as they do the same.
- ObjectFinder.GetObjectAt: the tokens are given; the tokenizer and the search in the parsed value (`get_map_editing`) are not part of this model.
- PixelSearch.BorderRect: the corners are returned as they are; the rectangle built from them, and a negative coordinate whose pixel the source would look up, are not part of this model.
- PixelSearch.Search: nodes are found by their pixel, as in `node_list`; sharing of node pointers is not modelled apart from that.
- Backgrounds, collisions, caches, checksums, shaders, dialogs and the remaining widgets.
