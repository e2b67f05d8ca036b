# Navit's core algorithms

A model of the self-contained algorithms in the C core of Navit, with proofs.  `dafny verify dfyconfig.toml`
checks all of it.  Code that updates structures in place is modelled by classes, arrays and loops, each method
proved against a function on values; the theorems are about those functions.

- **Cache** (`navit/cache.c`).  `ArcState`, `ArcRuns` and `ArcHistory` hold the adaptive replacement cache as a
  machine on four sequences: sizes in bytes, ghosts trimmed to their header, pinned entries; `ArcAdapt` says how it
  adapts.  `ArcList` and `ArcCache` hold the doubly linked lists and the hash table, which refine it.  The textbook
  bounds are proved in entries, with the exact effect of pins, for every run.
- **Polygons** (`navit/geom.c`).  `SegmentSort`, `SegmentRings`, `SegmentOneWay`, `SegmentKinds` and `SegmentAssembly`
  are the assembly of way pieces: no edge is lost, kinds stay apart, and rings close.  `Areas` is area and centroid;
  `Coords` and `CArith` are shared.
- **Drawing** (`navit/graphics.c`).  `Clip`, `ClipLines` and `ClipBuffers` clip polygons, with holes, between two
  buffers of fixed size, and `ItemClip` does so between map items (`navit/maptool/itembin.c`).  `TypeIndex` is the
  open-addressing table of item types.  `Labels` is the registry of placed labels.
- **Commands** (`navit/command.c`).  `CommandTree` and `CommandGrammar` parse commands to trees, `CommandMeaning` says
  what running an expression does, `CommandSteps` what executing a statement where it stands does, and `Command` is
  the evaluator, which does all in one pass and has a mode that walks over text without executing it.  `CommandBraces`
  and `CommandEnds` tell when a run ends where a walk does, `CommandRuns` that statements mean what their trees mean,
  `CommandSteady` gives a condition on the text alone, `CommandStray` shows it to be exact for names, and
  `CommandExamples` has texts at the border.  `CommandPrint`, `CommandRoundTrip` and `CommandListing` print trees and
  show that they are read back, and `CommandValues` has the meaning of expressions apart from the evaluator.  Object
  access is an oracle that answers a log of events.
- **Bookmarks** (`navit/bookmarks.c`).  `BookmarkLines` is loading and storing on lists of entries, `BookmarkTree` the
  tree with its cursor, `BookmarkText` the printed lines and `BookmarkFile` the file as text.
- **Callback lists** (`navit/callback.c`).  `CallbackLists` follows lists that their own callbacks change, call again
  or destroy.  What callbacks do is an arbitrary finite script.
- **Lines and bytes**.  `AttrLine` is the attribute parser of `navit/attr.c` with its escaping, `HeaderScan` the
  search for the end of an HTTP header in `navit/file.c` (section 6 and Appendix B of RFC 1945).
- **Selections** (`navit/map.h`, `navit/item.c`).  `Selection` has the containment tests and the scan in pieces.

Where the code and its own comments disagree, the code is followed:

- The operator `/` of commands multiplies (`navit/command.c:544-549`), and `&&` and `||` evaluate both operands,
  although the right one is only converted when the left one does not decide.
- Repeated minus signs are taken into a number (`navit/command.c:697`), so `5-3` is one literal with the value 5.
- A foreach without an object returns false behind its body, which ends the block it is in.  An `if` around that block
  goes on all the same, in the middle of the block (`LeftBlock`).  For texts with even braces a run ends where walking
  over the text ends exactly if no executed block was left like that (`EndsWithWalk`).  With an open brace, leaving a
  block can go unnoticed (`OpenBlock`).  What a caller can check before: if no block in the text directly holds a
  foreach, or a statement without its semicolon, all runs end at the same place (`SteadyEnds`, `SameEnd`).  That is
  exact when all expressions are names or members (`SteadyExactly`); otherwise a block may be out of reach, as behind
  `if(0)` (`NeverRun`).
- A name that begins with `if` or `foreach` is taken for the keyword where a statement begins (`KeywordTaken`).
- Pieces with a side can be turned the wrong way around where more than two ends meet at a ring (`ThirdEndTurnsRing`);
  otherwise sides are kept (`SidesKept`).
- A decimal number ends before an exponent, but its value counts it (`ExponentReads`).
- `attr_from_line` copies a negative length for a line that ends in `="` (`NegativeExactly`).
- Bookmarks are written without escaping; which labels and paths survive is told by `LineReadsBack`.
- Labels of a text never overlap, exactly if their line height is not negative (`DisjointExactly`).
- Pinned entries can push the cache over its bounds, by one entry for each access that finds all candidates pinned
  (`PinsBreakTheBound`), and just if there is no entry to spare (`AccessBoundedExactly`).

## Model

| member | source | states |
|---|---|---|
| ArcRuns.RunBounded | navit/cache.c:217-326 | Every run of accesses, releases and flushes keeps residents, T1+B1 and all entries within K, K and 2K entries (K = size / header size, rounded up), plus one for each access that found all candidates for eviction pinned |
| ArcRuns.FreshRunBounded | navit/cache.c:77-96 | From an empty cache, runs that never find all candidates pinned keep the three bounds exactly; the bounds hold all along just if no access breaks them as below |
| ArcRuns.PinsBreakTheBound | navit/cache.c:148-166 | The pins matter: a concrete run of two accesses with both blocks in use exceeds K |
| ArcRuns.AccessBounded | navit/cache.c:252-326 | One lookup, with the insertion that follows a miss, keeps the bounds with whatever slack there was, up to one entry more if it is blocked by pins |
| ArcRuns.AccessBoundedExactly | navit/cache.c:252-326 | Starting within the bounds, an access exceeds them exactly if it finds all candidates for eviction pinned and there is no entry to spare, both of which can be told before the call |
| ArcRuns.RunBoundedExactly | navit/cache.c:217-326 | The bounds hold at every point of a run exactly if no access of it finds all candidates pinned with no entry to spare |
| ArcRuns.BlockedRoom | navit/cache.c:305-324 | A blocked insertion gives up no resident, and a ghost only if T1 alone does not fill the cache |
| ArcRuns.StepBounded | navit/cache.c:179-184 | Each access, release or flush keeps the three bounds with whatever slack there was, up to one entry more for an access that is blocked by pins |
| ArcRuns.MakeRoomCounts | navit/cache.c:305-324 | After making room, one more entry still meets the three bounds |
| ArcRuns.GhostHitCounts | navit/cache.c:280-302 | A ghost hit forgets one ghost and turns one resident into a ghost unless all are pinned; T1+B1 does not grow |
| ArcRuns.FewBytesFewEntries | navit/cache.c:305-324 | The byte tests of insertion bound the numbers of entries, because each entry takes at least its header |
| ArcRuns.StepConsistent | navit/cache.c:236-326 | Every operation keeps the invariant: no id in two places, ghosts unused and of header size, target between 0 and the size; a used id is known, a flushed one is not |
| ArcState.ReplaceMovesOne | navit/cache.c:217-234 | A replacement turns one unpinned resident into a ghost of its own side and forgets no id, or changes nothing when every resident is pinned |
| ArcState.ReplaceConsistent | navit/cache.c:217-234 | A replacement keeps the invariant |
| ArcAdapt.HitInB1Raises | navit/cache.c:284-287 | A hit in B1 raises the target for T1, unless it is as large as the cache, by the largest step that fits: 1, or one that takes B1 no more often than it goes into B2 in bytes |
| ArcAdapt.HitInB2Lowers | navit/cache.c:288-294 | A hit in B2 lowers the target, unless it is 0, by the largest such step with B1 and B2 exchanged |
| ArcAdapt.OthersKeepTarget | navit/cache.c:252-280 | No other lookup changes the target, nor does a release or a flush |
| ArcAdapt.InsertKeepsTarget | navit/cache.c:305-326 | An insertion does not change the target |
| ArcAdapt.ReplaceSide | navit/cache.c:217-234 | The victim comes from T1 exactly if T1 holds at least the target and a byte and has a free entry, or T2 has none; it is the least recently used free one, and its header becomes the first ghost of its side |
| ArcAdapt.RoomForgets | navit/cache.c:305-324 | Room for a new id costs at most one known id: one of T1 only if T1 alone fills the cache, of B1 only if T1 and B1 do, of B2 only if all hold twice the size |
| ArcAdapt.AccessPutsFirst | navit/cache.c:252-326 | After an access the id stands first, in T2 if it was known and in T1 if it is new, as a new entry with one user and the given block after a miss |
| ArcAdapt.ReleaseUndoesHit | navit/cache.c:179-184 | A hit adds one user and giving the block back takes one away |
| ArcState.OthersOf | navit/cache.c:252-280 | With unique ids, taking out the entry that is found leaves all entries of other ids, in their order |
| ArcState.HitMovesToFront | navit/cache.c:252-280 | A hit puts the entry in front of T2 with one user more and returns its block; T1 and the rest of T2 are as before but for the entry, and nothing else changes |
| ArcState.HitConsistent | navit/cache.c:252-280 | A hit keeps the invariant |
| ArcState.MissIds | navit/cache.c:252-303 | A miss forgets the ghost of that id and no other id, keeps the invariant and decides where the insertion goes |
| ArcState.LastUnpinned | navit/cache.c:148-166 | The last entry in the list that nobody uses, or -1 |
| ArcRuns.InsertConsistent | navit/cache.c:305-326 | Inserting an id that is not known keeps the invariant, adds that id and no other |
| ArcRuns.FlushConsistent | navit/cache.c:236-250 | Flushing keeps the invariant |
| ArcRuns.FlushIds | navit/cache.c:236-250 | Flushing an id takes away that id and no other |
| ArcRuns.ReleaseConsistent | navit/cache.c:179-184 | Giving a block back keeps the invariant and all ids |
| ArcHistory.HitReturnsLatest | navit/cache.c:252-303 | Over every run: a hit returns the block last inserted for that id, and a miss returns none |
| ArcHistory.RunAgrees | navit/cache.c:252-326 | Every resident block is the one last inserted for its id, after every run |
| ArcList.EntryList.InsertMru | navit/cache.c:102-114 | The links, back links, `where` and size after an insertion in front describe the sequence with the entry in front |
| ArcList.EntryList.Remove | navit/cache.c:116-126 | Unlinking any entry leaves the sequence without it |
| ArcList.EntryList.RemoveLast | navit/cache.c:135-146 | The entry at the end is unlinked |
| ArcList.EntryList.Rotate | navit/cache.c:148-160 | The rotating loop ends; it has moved only pinned entries, and has seen all bytes exactly if every entry is pinned |
| ArcList.EntryList.RemoveLru | navit/cache.c:148-166 | Of A+[v]+U, with v the last unpinned entry, v is taken out and U+A is left; if all are pinned the result is NULL and the order is kept |
| ArcCache.Cache.constructor | navit/cache.c:77-96 | A new cache is the empty state |
| ArcCache.Cache.Move | navit/cache.c:186-215 | The last unpinned entry leaves one list and its header comes first in the other |
| ArcCache.Cache.MoveFromT1 | navit/cache.c:207-234 | A move from T1 to B1 refines the one on values |
| ArcCache.Cache.MoveFromT2 | navit/cache.c:207-234 | A move from T2 to B2 refines the one on values |
| ArcCache.Cache.ReplaceOne | navit/cache.c:217-234 | The replacement over linked lists and hash table refines the one on values |
| ArcCache.Cache.Lookup | navit/cache.c:252-303 | The lookup refines the one on values; it returns an entry exactly for residents, and that of the id |
| ArcCache.Cache.Insert | navit/cache.c:305-326 | The insertion refines the one on values and the table finds the new entry |
| ArcCache.Cache.Access | navit/file.c:337-340 | Lookup, and on a miss insertion of the same id, refines one step of the runs above |
| ArcCache.Cache.Flush | navit/cache.c:236-250 | Flushing refines the one on values and takes the id out of the table |
| ArcCache.Cache.Release | navit/cache.c:179-184 | Giving back a block takes one user off its entry |
| ArcCache.Cache.TableIsLists | navit/cache.c:128-133 | The ids in the hash table are just those in the four lists, and no id is listed twice |
| ArcCache.Cache.Places | navit/cache.c:102-133 | Where the hash table says an id is agrees with `where` and with the lists |
| ArcCache.Cache.GhostSpot | navit/cache.c:280-298 | A ghost that is hit is on a list with a positive size, so the adaptation divides by no zero |
| SegmentSort.EdgesConserved | navit/geom.c:190-301 | For any types and pieces, the assembled pieces have the edges of the input, each as often |
| SegmentKinds.KindsApart | navit/geom.c:240-301 | If no piece is of unknown kind, the assembled inner pieces have the edges of the inner ones that went in, the outer ones those of the outer ones, and those of no kind theirs |
| SegmentKinds.KnownKindsMeet | navit/geom.c:240-266 | Pieces of known kinds are joined only to their kind, or left sides to right sides; same sides meet end to start, different ones start to start or end to end, so that one is turned around |
| SegmentKinds.SidesKept | navit/geom.c:240-301 | If no more than two pieces end at a coordinate, every edge of a left or right piece keeps the side it has on its left, however pieces are turned around |
| SegmentKinds.SidesTurn | navit/geom.c:240-266 | A one-sided piece that is joined is turned around just if it is of the other side, unless it is a ring |
| SegmentKinds.ThirdEndTurnsRing | navit/geom.c:240-301 | With a third end at a coordinate this can fail: a line that starts at a ring turns the ring around |
| SegmentSort.EdgesJoined | navit/geom.c:190-224 | A join shows the edges of its parts; those of a part that is turned around are seen the other way |
| SegmentSort.JointsMeet | navit/geom.c:190-224 | The joints of a joined piece are at equal coordinates, after turning pieces around where needed |
| SegmentSort.ChosenFits | navit/geom.c:240-288 | The pieces that a round of the sort picks always fit, and are never the same piece twice |
| SegmentRings.RingsClose | navit/geom.c:240-301 | Pieces of one two-way type whose coordinates are ends twice or never are assembled into closed rings only |
| SegmentRings.PairedStep | navit/geom.c:268-288 | One round keeps the open ends of the assembled pieces to just the coordinates used once so far |
| SegmentOneWay.DirectedRingsClose | navit/geom.c:240-301 | Pieces of one directed type, each coordinate starting at most one and ending as many, become closed rings, and every edge keeps its direction |
| SegmentAssembly.Insert | navit/geom.c:190-224 | The new array is filled exactly with the joined coordinates |
| SegmentAssembly.CompatibleSegments | navit/geom.c:240-266 | Which pieces may be joined at which end |
| SegmentAssembly.FindMatches | navit/geom.c:268-280 | The last piece of the list that fits in front and the last that fits behind |
| SegmentAssembly.AddSegment | navit/geom.c:268-288 | One round: the joined piece is in front and the pieces it used up, and no others, are gone |
| SegmentAssembly.Sort | navit/geom.c:268-301 | The sort over lists and arrays gives the assembled pieces, with rings of the right side told apart by their area |
| SegmentAssembly.TurningTells | navit/geom.c:289-299 | A ring of right sides that turns left is inner, and turned around it is outer |
| Coords.CopyCoords | navit/geom.c:23-32 | Copies forwards or backwards |
| Coords.RevertCoords | navit/geom.c:72-81 | Reverses in place |
| Coords.ReversedTwice | navit/geom.c:72-81 | Reversing twice changes nothing |
| Areas.PolyArea | navit/geom.c:83-92 | The loop computes half the trapezoid sum, cut towards zero |
| Areas.PolyCentroid | navit/geom.c:101-126 | The loop computes the centroid by cross products from the first vertex, and none without area |
| Areas.TrapezoidIsMinusCross | navit/geom.c:83-126 | The trapezoid sum of the area is minus the cross-product sum of the centroid, from any origin |
| Areas.AreaShifted | navit/geom.c:83-92 | Moving a polygon keeps its area |
| Areas.CentroidShifted | navit/geom.c:101-126 | The centroid moves with the polygon, truncation included |
| Areas.AreaReversed | navit/geom.c:72-92 | Turning a polygon around negates its area, including the truncating halving |
| Areas.AroundCut | navit/geom.c:83-126 | A cut across a polygon splits it into two whose area sums, and moment sums, add up |
| Areas.SumsAreOpposite | navit/geom.c:83-126 | All these sums change sign with the direction of an edge, as the cut needs |
| Areas.RectangleArea | navit/geom.c:83-92 | A rectangle that turns left has minus width times height as its area |
| Areas.RectangleCentroid | navit/geom.c:101-126 | The centroid of a rectangle is its middle, cut towards the corner it starts from |
| Clip.OffsetBetween | navit/geom.c:409-430 | The intersection of this file, which cuts the offset from the first end, lies between the two ends |
| Clip.AlongBetween | navit/graphics.c:2507-2528 | The truncated intersection lies between the two ends, and nothing is divided by zero |
| Clip.CrossingInside | navit/graphics.c:2492-2528 | Either intersection, of the screen or of map items, is on its edge and on the inner side of every edge that both ends respect |
| ClipLines.CrossingOnLine | navit/graphics.c:2507-2528 | Either intersection is on the line through the ends, off by less than one unit along the edge; on the screen the coordinate is cut towards zero, in maps its distance from the first end |
| ClipLines.PassVertices | navit/graphics.c:2574-2608 | The vertices of a pass are the input vertices inside the edge and, for each side that crosses the edge, the point where it does; there are no others |
| CArith.OneCut | navit/graphics.c:2507-2528 | A cut value is determined, so that the two results fix the intersection |
| Clip.PassLength | navit/graphics.c:2574-2608 | A pass over n points gives at most 3n/2, since around a polygon entries and exits are as many |
| Clip.ClippedFits | navit/graphics.c:2541-2618 | Every intermediate polygon and the result fit into 8n+1 points |
| Clip.ClippedInside | navit/graphics.c:2492-2618 | Every vertex of a polygon clipped to a proper rectangle lies inside it |
| Clip.InsideUnchanged | navit/graphics.c:2492-2618 | A polygon inside comes back unchanged |
| Clip.BeyondClippedAway | navit/graphics.c:2492-2618 | A polygon beyond one edge is clipped to nothing |
| Clip.SurvivorsKept | navit/graphics.c:2492-2618 | Clipping keeps the vertices inside, in their order |
| ClipBuffers.ClipPass | navit/graphics.c:2574-2608 | One pass from buffer to buffer writes just the clipped points |
| ClipBuffers.ClipPolygon | navit/graphics.c:2541-2627 | With alternating buffers the result is in the output, behind what was there; with too little room nothing is written |
| ClipBuffers.ClipWithHoles | navit/graphics.c:2672-2740 | The capacity check never fails for any hole; the slices of the clipped holes follow one another in the buffer and hold just the non-empty results |
| ItemClip.ClipPolygonItem | navit/maptool/itembin.c:606-657 | The four passes over map items, flipping between two, give the clipped polygon with the intersection of the map code and leave the item alone |
| ItemClip.ClipAt | navit/maptool/itembin.c:617-640 | One pass appends just the clipped points |
| TypeIndex.Table.Set | navit/graphics.c:205-221 | Insertion ends when the type is there or a slot is free, and adds just that type |
| TypeIndex.Table.Get | navit/graphics.c:192-203 | The bounded probe finds a type exactly if it is in the table |
| TypeIndex.Table.Update | navit/graphics.c:3385-3413 | After an update the table holds just the types of the layers, or what they refer to, whose order range covers the order, for every list of types whose insertion ends |
| TypeIndex.FindAfterUpdate | navit/graphics.c:3385-3413 | For every hash: after an update that ends, a type other than none is found exactly if some layer draws it at the order |
| TypeIndex.StopsExactly | navit/graphics.c:205-221 | A probe ever stops exactly if the type is in the table or the table is not full |
| TypeIndex.FitsExactly | navit/graphics.c:205-221 | Inserting a list of types ends, probe by probe, exactly if it has at most 1024 types other than none and lists none only while a slot is free |
| TypeIndex.FillKeepsProbed | navit/graphics.c:205-221 | Filling the slot where a probe stops keeps every type within the bound |
| TypeIndex.NotInTable | navit/graphics.c:192-203 | A type not met up to a free slot or the bound is not in the table |
| TypeIndex.LayersListedIs | navit/graphics.c:3385-3405 | The collected types are those that some layer draws at the order |
| TypeIndex.OrderRange | navit/graphics.c:3385-3405 | The orders of an item graphics are those from its first to its last, both included |
| TypeIndex.ReferringLayer | navit/graphics.c:3387-3391 | A layer that refers to another draws what that one draws and nothing of its own |
| Labels.RunDisjoint | navit/graphics.c:1671-1722 | Whatever is drawn in a frame, the boxes recorded for a text are disjoint, for line heights of at least 0 |
| Labels.RunApart | navit/graphics.c:1647-1722 | In a frame of labels of one width, height and text size, those drawn for a text are half a width and two line heights from each other, with more than a line height between their boxes |
| Labels.ApartIsDrawn | navit/graphics.c:1671-1700 | A label that is that far from all that are not smaller is drawn |
| Labels.RecordingKeeps | navit/graphics.c:1705-1722 | Recording a label takes out just the smaller ones whose boxes have a point in common with it |
| Labels.RecordedDisjoint | navit/graphics.c:1671-1722 | One duplicate check and recording keeps them disjoint |
| Labels.DisjointExactly | navit/graphics.c:1598-1700 | For every width and line height: the recorded boxes of a text stay disjoint in all frames of labels with boxes as they are computed exactly if the height is not negative |
| Labels.NegativeHeightTouches | navit/graphics.c:1598-1700 | For every width and negative height, two labels drawn to the right that are both recorded with overlapping boxes |
| Labels.GetBox | navit/graphics.c:1598-1621 | The loop over the corners gives the least and greatest coordinates, cut towards zero |
| Labels.LeastIs | navit/graphics.c:1606-1613 | The least corner is one of the corners and below the others |
| Labels.MirroredBox | navit/graphics.c:1598-1621 | Mirrored at the diagonal, with anchor and direction, a text has the mirrored box |
| Labels.RightBox | navit/graphics.c:1598-1621 | The box of a text drawn to the right |
| Labels.RunKeepsLargest | navit/graphics.c:1705-1722 | Of each text the registry holds a label as large as the largest asked for in the frame, and only labels that were asked for |
| Labels.LargestNeverShrinks | navit/graphics.c:1705-1722 | The largest recorded size of a text never decreases |
| Labels.Frame.IsDuplicate | navit/graphics.c:1671-1700 | The loop finds whether a label that is not smaller is near the anchor or overlaps the inflated box |
| Labels.Frame.Record | navit/graphics.c:1705-1722 | The new label is first, smaller ones it covers are gone, the others are kept |
| Labels.Frame.Draw | navit/graphics.c:1774-1780 | Check, and record if it is no duplicate |
| Labels.Frame.DrawAll | navit/graphics.c:2900-2909 | A frame of labels gives the state that the theorems are about |
| Command.Context.EvalComma | navit/command.c:1229-1246 | The one-pass evaluator of expressions is parsing followed by running the tree: it succeeds exactly if both do, ends behind the tree and gives its result and its object accesses; while skipping it is parsing alone |
| Command.Context.EvalSingle | navit/command.c:1420-1546 | One statement returns what the step on values returns, stops where that stops and leaves that log, with an error exactly if that breaks; `skip` is restored, and skipping touches no object |
| Command.Context.Evaluate | navit/command.c:1548-1574 | A command executes its statements one by one and stops, with the log, exactly where the steps on values stop: behind one that returns false or before one that breaks |
| Command.Context.EvalForeach | navit/command.c:1441-1508 | Walks over variable and body, then runs the body once for each object and returns to where it was; without an object it gives up behind the body |
| Command.Context.RunBody | navit/command.c:1487-1508 | The rounds of a foreach execute the body for each item in order, and stop where a body returns false |
| Command.Context.EvalIf | navit/command.c:1509-1536 | Executes the branch that the condition selects, walks over the other and returns true whatever they return |
| Command.Context.EvalThen | navit/command.c:1524-1536 | The branches; an `else` is looked for where the first branch stopped |
| Command.Context.EvalBlock | navit/command.c:1537-1542 | Executes the statements up to the brace, or leaves the block behind the first one that returns false |
| Command.Context.EvalConditional | navit/command.c:1156-1201 | Runs the condition and one branch of `?:` and walks over the other |
| Command.Context.EvalBranches | navit/command.c:1165-1201 | The branches of `?:`, each with its own skip flag |
| Command.Context.EvalAssignment | navit/command.c:1205-1226 | Target and value are run, then the attribute is set |
| Command.Context.EvalLevel | navit/command.c:979-1154 | The unary level and the eight binary levels, which group to the left |
| Command.Context.EvalOperand | navit/command.c:991-1008 | One round of a binary level |
| Command.Context.EvalPostfix | navit/command.c:906-977 | A value with its attributes, empty brackets and calls |
| Command.Context.EvalSuffix | navit/command.c:914-976 | One round of the loop behind a value: a member, empty brackets or a call |
| Command.Context.CallFunction | navit/command.c:813-904 | Arguments, closing parenthesis and call |
| Command.Context.EvalList | navit/command.c:1248-1267 | The arguments are run and fetched from left to right |
| Command.Context.EvalBrace | navit/command.c:801-811 | A parenthesised expression or a value |
| Command.Context.EvalValue | navit/command.c:662-751 | Names, numbers and quoted strings |
| Command.Context.EvalQuoted | navit/command.c:710-746 | A quoted string ends where its copy ends |
| Command.Context.FindQuote | navit/command.c:710-730 | The loop that looks for the closing quote and notes backslashes |
| Command.Context.BinaryOp | navit/command.c:481-594 | Resolves both operands and applies the operator |
| Command.Context.OperatorOp | navit/command.c:496-579 | Converts both operands from the left and computes, or fails where the operator does not apply |
| Command.Context.LogicalOp | navit/command.c:580-585 | Converts the right operand only if the left one does not decide |
| Command.Context.PrefixOp | navit/command.c:481-494 | Negation of the value that the operand stands for, resolved |
| Command.Context.IntOrBool | navit/command.c:424-441 | The number or truth value of a result, or the wrong-type error |
| Command.Context.Resolve | navit/command.c:365-397 | Fetches what a name stands for, unless skipping |
| Command.Context.SetAttribute | navit/command.c:328-349 | Sets an attribute to the value retyped as the attribute, unless skipping; that value becomes the result |
| Command.Context.GetOp | navit/command.c:179-199 | Skips spaces and takes the first operator that matches |
| Command.WalkAgreesWithRun | navit/command.c:1156-1201 | Whenever a run of an expression succeeds, walking over it succeeds, ends at the same character and touches no object |
| Command.WalkAgreesWithCommand | navit/command.c:1420-1574 | A run that gets through a text whose braces are even or whose statements are steady ends where the walk ends, and a walk touches no object |
| CommandEnds.EndsWithWalk | navit/command.c:1420-1546 | An error-free run of a statement whose text closes the braces it opens ends where walking over it ends exactly if it left no executed block before its closing brace; that no block was left is enough for every text |
| CommandEnds.CommandEndsOnWay | navit/command.c:1548-1574 | The same for whole commands: the run stops at a place the walk comes by exactly if it left no executed block early |
| CommandEnds.ThroughAgrees | navit/command.c:1548-1574 | A run that gets through a text with even braces left no block early and ends where the walk does |
| CommandSteady.SteadyEnds | navit/command.c:1420-1546 | A condition on the text alone: if no block directly holds a foreach or a statement without its semicolon, then every run that gets through the statement, whatever the objects do, leaves no block early, does what the tree says and ends behind the statement |
| CommandSteady.SameEnd | navit/command.c:1420-1546 | Any two runs of such a statement, on any objects, that get through it end at the same place |
| CommandSteady.SteadyCommandEnds | navit/command.c:1548-1574 | If all statements of a command are like that and none but the last may return false, no run leaves a block early, and a run stops where the walk stops unless an expression fails |
| CommandSteady.SameCommandEnd | navit/command.c:1548-1574 | Any two runs of such a command that get through it stop at the same place |
| CommandStray.SteadyExactly | navit/command.c:1420-1546 | When all expressions are names or names of members: no run, on any objects, leaves a block early exactly if the statement is steady |
| CommandStray.SteadyEndsExactly | navit/command.c:1420-1546 | For such a statement with even braces and steady foreach bodies: every run without a failing expression ends where the walk ends exactly if the statement is steady |
| CommandStray.NeverRun | navit/command.c:1509-1536 | With other expressions a statement need not be steady to be safe: what stands behind a condition of 0 is never run |
| CommandRuns.SteadyStays | navit/command.c:1420-1546 | Executing a steady tree never leaves a block early, and it returns false only if it is a foreach or lacks its semicolon |
| CommandEnds.StepAligned | navit/command.c:1420-1546 | A run that left no block early ends where the statement ends, and if it returns true the statement is complete |
| CommandEnds.StepOpens | navit/command.c:1420-1546 | In the text that a run passed, at least as many braces stay open as it left blocks |
| CommandRuns.TreeMeans | navit/command.c:1420-1546 | Executing a statement where it stands returns, logs and fails as executing its tree does, and ends behind it, as long as no block is left early |
| CommandExamples.LeftBlock | navit/command.c:1420-1546 | A text with even braces where an `if` goes on in the middle of its block: run and walk end at different places |
| CommandExamples.LeftBlockIsUnsteady | navit/command.c:1420-1546 | The tree of that text is not steady |
| CommandExamples.ExponentReads | navit/command.c:603-608 | The value of a decimal number counts the exponent behind it, although the number ends before it |
| CommandExamples.OpenBlock | navit/command.c:1420-1546 | A text with an open brace where run and walk meet although a block was left |
| CommandBraces.CommaPasses | navit/command.c:1229-1246 | An expression opens as many braces as it closes, strings read as the evaluator reads them |
| Command.EvaluateToLength | navit/command.c:1402-1418 | The length is where the parsed expression ends, 0 with an error |
| Command.EvaluateToBoolean | navit/command.c:1372-1400 | The truth of the value that running the parsed expression gives, false with an error |
| CommandMeaning.TailFails | navit/command.c:991-1154 | An operand that fails makes the whole chain of its level fail |
| CommandMeaning.SuffixesFail | navit/command.c:906-977 | A value that fails makes what is built on it fail |
| CommandRoundTrip.RoundTrip | navit/command.c:662-1246 | Every tree of names, numbers, strings, members, calls, prefixes, binary operators, choices, assignments and commas, printed with parentheses only where the strengths of operators ask for them, is read as that tree, to the end of its text |
| CommandPrint.ArithmeticInOrder | navit/command.c:991-1070 | Products bind tighter than sums and those tighter than comparisons |
| CommandPrint.LogicInOrder | navit/command.c:1054-1246 | Below follow &, ^, |, &&, ||, ?:, assignment and the comma |
| CommandRoundTrip.TextsDiffer | navit/command.c:662-1246 | Different trees have different texts |
| CommandListing.StatementRoundTrip | navit/command.c:1420-1546 | Every statement without ambiguous else and without keywords at its start has a text that is read as that statement, complete, to its end |
| CommandListing.KeywordTaken | navit/command.c:1434-1440 | A name that begins like a keyword cannot begin a statement |
| CommandValues.RunComputes | navit/command.c:481-594 | A tree of integers and operators runs to the number it stands for and asks nothing of any object |
| CommandValues.EvaluateText | navit/command.c:481-1246 | The evaluator on the text of such a tree gives that number |
| CommandValues.ConditionSelects | navit/command.c:1509-1536 | A condition of numbers selects the branch |
| CommandValues.StringsAndObjects | navit/command.c:500-560 | Strings are joined and compared as wholes, objects by identity |
| CommandValues.TruthAgrees | navit/command.c:424-441 | As a condition a value counts as it does for a boolean expression |
| CommandValues.ArgumentsInOrder | navit/command.c:1248-1267 | A call gets its arguments in the order in which they are written |
| CommandValues.ForeachInOrder | navit/command.c:1487-1508 | A foreach sets its variable to the items in their order, once each |
| CommandValues.AssignmentsInOrder | navit/command.c:1205-1246 | Assignments are made from left to right |
| CommandValues.AttributeReads | navit/command.c:351-397 | An attribute that an object lacks reads as nothing |
| CommandValues.CallGives | navit/command.c:813-904 | A call gives what the function gives, but one that adds or removes an attribute gives the object |
| CommandGrammar.BlankIsNoStatement | navit/command.c:1548-1554 | Only spaces are no statement, so the loop over statements ends there |
| BookmarkLines.RewritingIsIdempotent | navit/bookmarks.c:168-359 | Loading and storing a file twice writes the same lines as doing it once |
| BookmarkLines.LoadedGrown | navit/bookmarks.c:188-235 | Every folder is listed before what is in it |
| BookmarkLines.LoadedKeepsEntries | navit/bookmarks.c:188-235 | The listing has the entries of the file, in their order |
| BookmarkLines.LoadedAddsFolders | navit/bookmarks.c:209-222 | All else in the listing is folders that some entry needs |
| BookmarkLines.StoredTidy | navit/bookmarks.c:309-359 | What is stored has no path twice and folders before what is in them |
| BookmarkLines.StoredKnows | navit/bookmarks.c:309-359 | The stored paths are the listed paths |
| BookmarkLines.StoredFirst | navit/bookmarks.c:326-327 | Of the entries with one path the first is stored |
| BookmarkLines.StoredTells | navit/bookmarks.c:326-348 | An entry that is first of its path is stored in a line of its kind with its full name, its last label and, for a bookmark, its own place |
| BookmarkLines.OnlyFirstStored | navit/bookmarks.c:326-348 | And every stored line tells so of such an entry |
| BookmarkLines.BookmarksSurvive | navit/bookmarks.c:168-359 | A bookmark that is first of its path is there again, with kind and place, when the stored file is loaded |
| BookmarkLines.LineIsEntry | navit/bookmarks.c:188-226 | A line is about one entry of its kind and place, under the path, or else the label, that it spells |
| BookmarkLines.JoinSplit | navit/bookmarks.c:205-226 | Joining the components of a path gives the path |
| BookmarkLines.SplitJoin | navit/bookmarks.c:313-324 | Taking a joined path apart gives its components |
| BookmarkLines.EntriesOfLines | navit/bookmarks.c:326-348 | The written lines read back as the entries |
| BookmarkText.LineReadsBack | navit/bookmarks.c:330-342 | A written line gives back label and path exactly if neither has a backslash or a space outside quotes of its own, and the quotes of the label come in pairs |
| BookmarkText.ValueReadsBack | navit/attr.c:1016-1058 | The same for one value between quotes with anything behind it |
| BookmarkText.BackslashLost | navit/attr.c:1016-1058 | A label that does not survive: the backslash in it is lost |
| BookmarkFile.RewritingIsIdempotent | navit/bookmarks.c:168-359 | On the text of the file: loading and storing once more changes nothing, if the labels and paths that were stored can do without escaping |
| BookmarkFile.RowReadsBack | navit/bookmarks.c:330-342 | Place, type, label and path of such a line are read as they were printed |
| BookmarkText.PassesExactly | navit/attr.c:1020-1037 | The walk over the value ends behind its closing quote, without escapes, exactly if the value passes |
| BookmarkTree.Bookmarks.Load | navit/bookmarks.c:168-236 | The tree built from lines lists what the specification says; each item is below the one its path leads to |
| BookmarkTree.Bookmarks.LoadLine | navit/bookmarks.c:188-234 | One line: the missing folders, then the item |
| BookmarkTree.Bookmarks.WalkDown | navit/bookmarks.c:205-226 | The walk ends at the item of the folder path, made where it was missing |
| BookmarkTree.Bookmarks.MoveDown | navit/bookmarks.c:95-111 | To the first child of that name, or nowhere |
| BookmarkTree.Bookmarks.MoveUp | navit/bookmarks.c:88-94 | To the parent, whose path is one label shorter |
| BookmarkTree.Bookmarks.MoveRoot | navit/bookmarks.c:82-87 | To the root, with its children rewound |
| BookmarkTree.Bookmarks.FullName | navit/bookmarks.c:313-324 | The labels up to the root, joined with slashes, are the path of the item |
| BookmarkTree.Bookmarks.Store | navit/bookmarks.c:295-359 | Writes the first item of each path, up to the limit |
| BookmarkTree.StepDown | navit/bookmarks.c:95-111 | The first child of a name is the first item listed with the longer path |
| CallbackLists.CallbackList.CallAttr | navit/callback.c:193-221 | Starts the matching nodes that were there before and were not removed, each once and in order; after a destruction at any depth no node is touched and no callback started; the outermost frame frees the list once; it goes wrong exactly if a callback removed a node that a frame had saved as its next |
| CallbackLists.CallbackList.Walk | navit/callback.c:206-218 | The loop of one frame |
| CallbackLists.CallbackList.Round | navit/callback.c:209-217 | One round: saves the next node, starts the callback, stops if the list was destroyed |
| CallbackLists.CallbackList.Destroy | navit/callback.c:249-267 | Frees the nodes, and the list itself at once if no frame is active |
| CallbackLists.CallbackList.Add | navit/callback.c:99-101 | A new node in front |
| CallbackLists.CallbackList.Remove | navit/callback.c:111-113 | The first node of the callback is gone; notes whether a frame had saved it |
| CallbackLists.AllStarted | navit/callback.c:206-218 | A walk that started all matching nodes once and in order started just those |
| CallbackLists.BehindIs | navit/callback.c:207-217 | The next node is the first with a smaller id, so rounds move on |
| CallbackLists.WhoMatches | navit/callback.c:210-212 | A call of any kind starts all, a callback of any kind is started by all, and the others keep to their kind |
| CallbackLists.WithoutFirst | navit/callback.c:111-113 | Removing a callback takes out its first node and leaves the others as they are |
| CallbackLists.SameNodesSameList | navit/callback.c:99-113 | Nodes stay in the order of their insertion |
| AttrLine.ReadsInOrder | navit/attr.c:997-1065 | Reading a printed line with a moving position gives its attributes in order and then fails, for all values |
| AttrLine.FindsFirst | navit/attr.c:997-1065 | Looking up a name gives the value of the first attribute of that name, or fails if there is none |
| AttrLine.NegativeExactly | navit/attr.c:1044-1058 | The copy is asked for a negative length exactly if the line breaks off right behind an opening quote, or behind that and a backslash |
| AttrLine.NegativeAt | navit/attr.c:1044-1058 | Such a line: one that ends in an equals sign and a quote |
| AttrLine.AttrFromLine | navit/attr.c:997-1065 | The pointer loop finds what the specification says |
| AttrLine.WalkValue | navit/attr.c:1020-1037 | The end of a value and its escapes |
| AttrLine.CopyValue | navit/attr.c:1038-1061 | Name and value of an attribute |
| AttrLine.ReadAll | navit/attr.c:997-1065 | Reading attribute by attribute recovers all pairs that were printed |
| AttrLine.Unescape | navit/util.c:227-248 | At most n characters, each backslash dropped and the character behind it kept |
| AttrLine.StrEscape | navit/util.c:133-209 | A backslash before each quote and backslash |
| AttrLine.EscapeUndone | navit/util.c:213-248 | Unescaping undoes escaping |
| AttrLine.EscapedPassed | navit/attr.c:1020-1037 | Inside quotes, an escaped value is passed without leaving them |
| AttrLine.ReadOne | navit/bookmarks.c:744-750 | One printed attribute, with others behind it, is read as name and value |
| Selection.Item.WithinSelection | navit/item.c:232-280 | The scan in pieces that stops early answers for all coordinates, and a result below the buffer size means the buffer holds them all; with a buffer of one, the first coordinate decides |
| Selection.Item.CoordGet | navit/item.c:153-168 | The next coordinates, as many as are left or fit |
| Selection.PointImpliesPolyline | navit/map.h:170-219 | A polyline with a vertex in the selection is in it |
| Selection.PolylineImpliesPolygon | navit/map.h:191-281 | A polygon whose outline is in the selection is in it |
| Selection.PointIsPolygon | navit/map.h:170-281 | For a single vertex the point and the polygon test agree |
| Selection.OverlapIsCommonPoint | navit/map.h:230-248 | Upright rectangles pass the overlap test exactly if they have a point in common |
| Selection.ContainsPoint | navit/map.h:170-179 | Some rectangle holds the point, or the selection is empty |
| Selection.ContainsPolyline | navit/map.h:191-219 | Some edge has bounds that overlap a rectangle, or the selection is empty |
| Selection.ContainsRect | navit/map.h:230-248 | Some rectangle overlaps, or the selection is empty |
| Selection.ContainsPolygon | navit/map.h:260-281 | The bounds of all vertices overlap a rectangle, or the selection is empty |
| HeaderScan.HeaderEnd | navit/file.c:159-175 | Stepping by two finds the end of the blank line that starts first, and nothing exactly if there is none |
| HeaderScan.EndIsStable | navit/file.c:159-175 | An end that was found stays the end when bytes are appended |
| HeaderScan.EndIsUnique | navit/file.c:159-175 | There is one such end |
| HeaderScan.ReadHeader | navit/file.c:399-417 | Scanning after each chunk finds the boundary that scanning everything finds |

## Left out

Of all modules:

- 32-bit wrap-around of coordinates, sizes and counters: integers are unbounded, except that divisions truncate as in C.
- Memory management as such: allocation, `g_free` of values and pointer arithmetic.

Of the cache:

- `cache_resize` (it can leave the target above the size), `cache_destroy`, the dumps and the hit statistics.
- Inserting an id without a lookup that missed it just before, which no client does.
- The contents of blocks after a failed read; a hit is shown to return the inserted block, whatever was read into it.
- The hash functions and the hash table itself: it is a map.

Of geometry and drawing:

- `geom_clip_line_code`, `geom_poly_point_inside`, `geom_line_middle` and `geom_poly_closest_point`.
- The buffers of map items (`navit/maptool/itembin.c`): items grow without bound.
- Floating point in `poly_intersection`: the value is exact and then cut to an integer.
- Rounding of floats in `label_get_bbox`: corners are exact and then cut to integers; labels that are off the screen are not asked for.
- The display items that the type table leads to, and drawing itself.
- TypeIndex.FindAfterUpdate: lists of types whose insertion does not end (`FitsExactly` tells which) are excluded by the precondition.

Of commands:

- Saved commands, `get_next_object` and `[@...]` filters: the evaluator of the model stops at such a filter with an error of its own.
- C leaves the order open in which the two operands of one operator are converted; here it is from left to right.
- The results of `-`, `%`, `~` on wide integers, `&`, `^`, `|` and of function calls are answers of the oracle.
- An iterator that never ends: a foreach iterates over a finite list that is fixed when it starts.
- CommandRoundTrip.RoundTrip: strings that hold a quote or a backslash and the name `new` have no printed text, so the result is not about them.
- CommandListing.StatementRoundTrip: statements without their semicolon, and expressions that begin like `else`, have no printed text either.
- Command.Context.EvalNumber: fractions of numbers are cut, since only whole parts and types decide anything here, and the rounding of decimal to binary numbers is left out.

Of bookmarks, callbacks, attributes and files:

- The bookmark hash, which is written but plays no part in loading and storing, the map file behind the lines, and the list position that storing with a limit leaves behind.
- BookmarkTree.Bookmarks.Load: requires the list to be used up, as storing without a limit leaves it.
- The patch function of callback lists, the arguments of callbacks, and callbacks freed by others.
- CallbackLists.CallbackList.CallAttr: behind the use of a removed node nothing is stated, because C leaves it open.
- BookmarkFile.ReadRow: a line with neither label nor path gets an empty name, where C takes what the attribute held before.
- BookmarkText.LineReadsBack: is about the attributes of one line; a line break in a label would end the line, and coordinates are not modelled as text.
- Sizes of the buffers that `attr_from_line` writes to, and the HTML modes of `str_escape`.
- Sockets, decompression and processing of headers around the header scan.
- `map_selection_contains_rect` aborts on rectangles that are not upright; they are excluded by its precondition.
