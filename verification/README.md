# Verified model of rgeocache

rgeocache answers "which address is at this place?" from a cache of OpenStreetMap points. This
project models the parts of it that carry the weight and proves what they are relied on for:

* **The KD-bush** (`KDTree`, `Sampling`, `SortSpec`, `Select`, `KDQuery`, `Bush`). Two parallel
  arrays are reordered in place by Floyd-Rivest selection into an implicit tree of alternating
  axes; box and disc queries walk it with an explicit stack and prune. Proved: the selection's
  scans stay in their slice, its sampling window is sound and strictly narrower, the tree order
  holds to every depth, and both queries agree with a linear scan of the points. `SortSpec` is the
  same sequence of exchanges as a function, so that every index over the same points holds the
  same rows.
* **Its disk form** (`Bytes`, `Blobs`, `DiskFormat`, `DiskBuild`, `DiskQuery`, `DiskRefines`). The
  tree as bytes, written through chunk buffers and read back by offset. Proved: every index,
  coordinate, leaf and payload reads back; the disk queries give the same points in the same order
  as the in-memory ones, early stops included.
* **The range index** (`Segments`, `Repaint`, `Merging`, `RangeIndex`). A point-keyed map kept as
  merged half-open segments. Proved: it refines a plain map over every run of operations, its
  segments are the unique and the shortest list for that map, and exactly which calls break its
  promise (those at the greatest key, whose successor wraps).
* **Joining ways into polygons** (`Ways`, `Joining`, `Polygons`, `Orientation`, `Containment`).
  Greedy stitching of lines into groups over a shrinking array window, rings, and the distribution
  of holes. Proved: edges are conserved with multiplicity, groups are maximal, rings wind as asked
  for, each hole is placed exactly once and where it belongs, and what belonging means.
* **The v2 cache and the geocoder** (`Interning`, `CachePoints`, `CacheZones`, `CacheFile`,
  `CacheStream`, `Nearest`, `Geocoder`, `EndToEnd`). String interning, the file's sections, reading
  them in one pass or by offset, and lookups in memory and over a saved file. Proved: ids are a
  bijection, every section is found where it was put, the points' data survives, both geocoders
  give the same answer, and when exactly the fold picks a closest point.
* **The fan-out** (`Tee`). One producer, n channels, iterators that may quit, as a step system.
  Proved over all interleavings: safety, termination, what the states of rest are, and when
  everybody gets everything.

Integers are unbounded where the source's cannot overflow within the stated sizes; 32-bit and
64-bit fields are truncated explicitly. Coordinates and distances are real numbers. What the source
takes from libraries is a parameter: `Sampler` (logarithm, exponential and square root, constrained
by `SoundSampler`), `FloatCodec` (the bits of a float), `Codec` and `Protos` (marshalling), `Winding`
(ring orientation), `Borders` (border trees). A handler that the source calls back is a function of
all calls made so far, so it may keep state.

Where code and comments differ, the code is followed: the geocoder is documented to return the
closest address, but its fold lets a heavier point displace a closer one
(`Geocoder.FartherAddress`). It returns a closest one from every index over the points, for every
place and radius, exactly when no place is without one of the heaviest points; among points at
different places, when all weigh the same (`Geocoder.NearestIffHeaviest`,
`Geocoder.HeaviestIfEqual`).

`dafny verify dfyconfig.toml` checks the project.

## Model

| member | source | states |
|---|---|---|
| Sampling.WindowSound | kdbush/kdbush.go:170-184 | For every n > 600 and every z, s, sd related as the code computes them, the clamped sampling window contains k, stays in [left,right] and is strictly narrower, so the recursion ends |
| Sampling.DeviationBound | kdbush/kdbush.go:174-180 | The deviation term never exceeds s/2 |
| Sampling.WindowPlace | kdbush/kdbush.go:170-184 | Before clamping the window is s wide, k divides it as it divides the slice, and the deviation shifts it down when k lies in the lower half and up otherwise |
| Select.SwapItem | kdbush/kdbush.go:223-239 | Exchanging two positions moves idxs and both coordinates in step: the rows are the old rows with two of them exchanged and nothing else touched |
| Select.ScanUp | kdbush/kdbush.go:199-201 | The upward scan stops at the first row not below t and never passes the sentinel |
| Select.ScanDown | kdbush/kdbush.go:202-204 | The downward scan stops at the last row not above t and never passes the sentinel |
| Select.SweepStep | kdbush/kdbush.go:195-205 | One turn of the inner loop keeps the sweep invariant: rows before i are at most t, rows after j at least t, and a sentinel remains on either side |
| Select.Meet | kdbush/kdbush.go:195-205 | The inner loop ends with i and j met, has only rearranged the slice, and computes the exchanges of the specification |
| Select.SeatPivot | kdbush/kdbush.go:186-193 | The exchanges before the loop put the pivot value at an end of the slice |
| Select.Partition | kdbush/kdbush.go:186-212 | One pass puts the value that was at k at j, splits the slice around it on the axis, and only rearranges that slice |
| Select.NarrowedKept | kdbush/kdbush.go:167-221 | Rearranging what is still in play keeps every earlier narrowing of the selection |
| Select.SelectPass | kdbush/kdbush.go:169-218 | One turn of the selection loop, recursive sampling included, ends in a split of left..right |
| Select.Select | kdbush/kdbush.go:167-221 | `sselect`: afterwards everything left of k is at most the value at k, everything right of it at least, on the given axis; only the slice is permuted, idxs and coords in step; it terminates for every sound sampler |
| Select.Sort | kdbush/kdbush.go:153-165 | `sort` establishes the alternating-axis tree order to every depth by permuting only its slice, and its result is a function of the rows |
| Select.SortedHalves | kdbush/kdbush.go:160-164 | Sorting one half breaks neither the median's split nor the other half's tree order |
| KDTree.SplitsKept | kdbush/kdbush.go:160-164 | Rearranging rows on one side of a median keeps the median's split |
| KDTree.KDFrame | kdbush/kdbush.go:160-164 | The tree order of a slice survives any change outside it |
| KDTree.Mid | kdbush/kdbush.go:158 | The median position halves a slice: the part after it has as many rows as the part before it, or one more |
| Bush.BuildArrays | kdbush/kdbush.go:137-151 | The built arrays are a permutation of the points with their coordinates, in tree order, and always the same rows for the same points |
| Bush.FillArrays | kdbush/kdbush.go:141-148 | Before sorting, row i is point i with its coordinates |
| Bush.KDBush.constructor | kdbush/kdbush.go:23-28 | A new index is valid: tree order over exactly its points |
| KDQuery.PruneSound | kdbush/kdbush.go:65-75 | A row on the far side of a pruned median never matches, ties on the split coordinate included |
| KDQuery.OutsideDisc | kdbush/kdbush.go:117-126 | A point further than the radius along one axis is outside the disc |
| KDQuery.MatchMeans | kdbush/kdbush.go:43-58 | What matches, in coordinates: the closed box, and the closed disc by squared differences |
| KDQuery.PruneExact | kdbush/kdbush.go:65-75 | A half is visited if and only if some place with keys on its side of the median would match |
| KDQuery.VisitExact | kdbush/kdbush.go:30-129 | On every tree-ordered slice the pruned traversal reports, with multiplicity, what the linear scan finds |
| KDQuery.ExactIffRadius | kdbush/kdbush.go:81-129 | `Within` is exact on every tree if and only if the radius is not negative |
| KDQuery.NegativeRadiusMisses | kdbush/kdbush.go:112-126 | Two points at the centre and a negative radius: one of them is missed |
| Bush.ScanMeaning | kdbush/kdbush.go:30-129 | The linear scan that serves as the reference lists exactly the matching indices, each once |
| Bush.OrderExact | kdbush/kdbush.go:30-129 | The reporting order of a valid index has each matching point exactly once and no other, and is a rearrangement of the linear scan |
| Bush.PushStep | kdbush/kdbush.go:65-75 | Replacing a popped inner slice by its pushed halves loses and adds nothing of what is still to be reported, right half first |
| Bush.LeafStep | kdbush/kdbush.go:43-52 | Popping a leaf and reporting its matches leaves exactly the rest of the stack to report |
| Bush.InnerStep | kdbush/kdbush.go:54-75 | Popping an inner slice likewise, with its median reported if it matches |
| Bush.Collect | kdbush/kdbush.go:34-79 | The stack loop of `Range` terminates and returns the traversal's order |
| Bush.CollectLeaf | kdbush/kdbush.go:43-52 | The leaf loop of `Range` finds exactly the matching rows of its slice, in order |
| Bush.Deliver | kdbush/kdbush.go:85-129 | The stack loop of `Within` hands over a prefix of the traversal's order that ends at the first refusal |
| Bush.DeliverLeaf | kdbush/kdbush.go:93-103 | The leaf loop of `Within` continues the calls with its matching rows until one is refused |
| Bush.KDBush.Range | kdbush/kdbush.go:30-79 | `Range` returns exactly the i with minX <= x <= maxX and minY <= y <= maxY for point i, each once |
| Bush.KDBush.Within | kdbush/kdbush.go:81-129 | `Within` hands the handler points one by one in a fixed order until it answers false; for a radius that is not negative that order has exactly the i with (x - qx)² + (y - qy)² <= radius² for point i, each once |
| Bush.DeliveredAll | kdbush/kdbush.go:81-129 | A handler that always answers true is given every match |
| Bush.DeliveredUnique | kdbush/kdbush.go:81-129 | The points and the handler's answers determine the calls |
| Bytes.LeRoundTrip | kdbush/kdbush_disk.go:140-146 | Little-endian words of any width decode to what was encoded |
| Bytes.WordsSlice | kdbush/kdbush_disk.go:535-600 | Cutting a run of words at word boundaries is cutting the list of words |
| Bytes.Put | kdbush/kdbush_disk.go:545-548 | Storing a word changes just its bytes of the buffer |
| DiskBuild.WriteChunk | kdbush/kdbush_disk.go:540-555 | A chunk goes out through the reused buffer as its words and nothing stale |
| DiskBuild.FillBuffer | kdbush/kdbush_disk.go:544-547 | The front of the buffer holds the words of the chunk |
| DiskBuild.WriteWords | kdbush/kdbush_disk.go:535-600 | The chunked writers write the same bytes as one write would, up to where the sink fails, and report that count |
| DiskBuild.WriteBlobs | kdbush/kdbush_disk.go:604-627 | The buffered blob writer writes the concatenation of the blobs, whatever the flushing, up to where the sink fails |
| DiskBuild.MarshalAll | kdbush/kdbush_disk.go:152-168 | The marshalling loop yields every payload in original order and its running offsets, or fails exactly when a payload does |
| DiskBuild.WriteSections | kdbush/kdbush_disk.go:170-193 | The five sections go out in order, stopping at the first that fails |
| DiskBuild.BuildDisk | kdbush/kdbush_disk.go:117-193 | Either a payload cannot be marshalled and nothing is written, or the image of the sorted rows goes out as far as the sink takes it, with the right count |
| DiskFormat.ImageSize | kdbush/kdbush_disk.go:47-70 | A whole image has 32 + 24N + 8(N+1) bytes and those of the payloads |
| DiskFormat.HeaderBytes | kdbush/kdbush_disk.go:47-70 | The header byte for byte: KDBH, version 1, node size and count as 64-bit words, eight zeros |
| DiskFormat.OpenBuilt | kdbush/kdbush_disk.go:206-246 | Opening at any offset where an image lies succeeds, with every section where it was laid |
| DiskFormat.OpenIff | kdbush/kdbush_disk.go:206-246 | Any file opens at an offset if and only if 32 bytes lie there that begin with KDBH and version 1, and where the handle then looks for the sections |
| DiskFormat.ReadIdxBack | kdbush/kdbush_disk.go:425-431 | Every index reads back |
| DiskFormat.ReadCoordBack | kdbush/kdbush_disk.go:435-443 | Every coordinate pair reads back |
| DiskFormat.ReadPointDataBack | kdbush/kdbush_disk.go:484-527 | Every payload reads back by original index, an empty one as the zero value |
| DiskFormat.ReadLeaf | kdbush/kdbush_disk.go:447-472 | The two batch reads decode as many indices and coordinate pairs as the leaf has rows |
| DiskQuery.LeafBack | kdbush/kdbush_disk.go:447-472 | A leaf read yields the rows of that slice |
| DiskQuery.LeafMatches | kdbush/kdbush_disk.go:278-292 | The leaf loop of the disk `Range` finds the matching rows of its slice |
| Blobs.ConcatSlice | kdbush/kdbush_disk.go:484-527 | Between the offsets of two neighbours lies exactly the first one's blob |
| DiskQuery.PushShrinks | kdbush/kdbush_disk.go:257-334 | Whatever the file says, every turn of the traversal leaves less work, so the queries terminate |
| DiskQuery.Matches | kdbush/kdbush_disk.go:262-318 | On a handle that holds a tree, the traversal of `Range` finds the rows of the in-memory order |
| DiskQuery.Range | kdbush/kdbush_disk.go:257-334 | On stored points, `Range` returns the points of the in-memory reporting order; on a tree these are exactly the points in the closed box, each once |
| DiskQuery.Within | kdbush/kdbush_disk.go:345-416 | On stored points, `Within` hands over the points of the in-memory reporting order up to the first refusal, without read errors; on a tree and for a radius that is not negative that order has exactly the points whose squared distance is at most radius², each once |
| DiskQuery.LeafWithin | kdbush/kdbush_disk.go:363-382 | The leaf loop of the disk `Within` continues the calls with its matching points until one is refused |
| DiskRefines.BuiltIsStored | kdbush/kdbush_disk.go:206-246 | An image anywhere in a file opens to a handle that stores the points, payloads included |
| DiskRefines.RangeAgrees | kdbush/kdbush_disk.go:257-334 | For the same points and node size the disk `Range` returns the points that the in-memory `Range` returned the indices of, in the same order; building fails only on a full sink |
| DiskRefines.WithinAgrees | kdbush/kdbush_disk.go:345-416 | For the same points, node size and handler, both `Within` make the same calls, early stop included, over exactly the points of the disc |
| Segments.RankSplits | internal/rangeindex/index.go:87-112 | The position where an ascent starts splits the sorted entries by key |
| Segments.DeleteMembers | internal/rangeindex/index.go:147-226 | Deleting from the ordered tree removes the entry with that key and no other |
| Segments.InsertMembers | internal/rangeindex/index.go:147-226 | Inserting replaces an entry with the same key and keeps all others |
| Segments.CanonicalUnique | internal/rangeindex/index.go:116-226 | Two canonical segment lists that mean the same map are the same list |
| Segments.CanonicalMinimal | internal/rangeindex/index.go:302-307 | No list of segments, in any order and overlapping or not, that describes the same map is shorter |
| Repaint.CutLookup | internal/rangeindex/index.go:147-226 | Trimming the overlaps and painting changes the map on [lo,hi) and nowhere else |
| Repaint.CutCanonical | internal/rangeindex/index.go:147-226 | After cutting, only the painted segment may still touch a neighbour with its value |
| Merging.LeftOfIs | internal/rangeindex/index.go:118-129 | The descent from a segment finds the neighbour that may end at it |
| Merging.MergedOk | internal/rangeindex/index.go:116-143 | Merging with both neighbours restores canonical form and keeps the map |
| RangeIndex.Index.constructor | internal/rangeindex/index.go:48-67 | A new index is valid and empty |
| RangeIndex.Index.CoveringIsLookup | internal/rangeindex/index.go:70-83 | `findCovering` finds a segment exactly when the map has the key, with its value |
| RangeIndex.Index.Get | internal/rangeindex/index.go:282-292 | `Get` is the map |
| RangeIndex.Index.FindOverlapping | internal/rangeindex/index.go:87-112 | One step down and an ascent collect exactly the segments that overlap [lo,hi), in order |
| RangeIndex.Ascend | internal/rangeindex/index.go:99-109 | The ascent collects the entries from its start up to hi, the one already taken only once |
| RangeIndex.Index.RemoveAll | internal/rangeindex/index.go:174-176 | Deleting the collected segments removes exactly those that overlap |
| RangeIndex.Index.MergeNeighbors | internal/rangeindex/index.go:116-143 | The in-place merge computes the specified one |
| RangeIndex.Index.Trims | internal/rangeindex/index.go:154-172 | The trims and the grown segment computed from the overlaps are those that painting calls for |
| RangeIndex.Index.InternalSet | internal/rangeindex/index.go:147-188 | Painting [lo,hi) changes the map there only and keeps the index canonical; an empty interval changes nothing |
| RangeIndex.Index.InternalDelete | internal/rangeindex/index.go:192-226 | Clearing [lo,hi), likewise |
| RangeIndex.Index.Set | internal/rangeindex/index.go:234-239 | `Set` sets that key only and keeps the index canonical; the key is found afterwards if and only if it is not the greatest of its type |
| RangeIndex.Index.Delete | internal/rangeindex/index.go:243-248 | `Delete` removes that key only |
| RangeIndex.Index.SetIfAbsent | internal/rangeindex/index.go:255-267 | It answers true exactly when the key was absent, and then sets it, and it only, unless it is the greatest of its type, where the effect is given exactly |
| RangeIndex.TopLost | internal/rangeindex/index.go:255-267 | A key set by `SetIfAbsent` at the greatest key is still not found |
| RangeIndex.TopSetErases | internal/rangeindex/index.go:255-267 | One `SetIfAbsent` at the greatest key can lose a whole stored run |
| RangeIndex.TopSetKeepsIff | internal/rangeindex/index.go:255-267 | `SetIfAbsent` at the greatest key leaves every other key alone if and only if neither the key before it nor the least key has that value |
| RangeIndex.Index.Clear | internal/rangeindex/index.go:270-274 | `Clear` leaves a valid empty index |
| RangeIndex.Index.Len | internal/rangeindex/index.go:302-307 | `Len` is the least number of segments that describe the map |
| RangeIndex.Index.CollectRanges | internal/rangeindex/index.go:330-340 | The result is the only canonical list for the map |
| RangeIndex.Apply | internal/rangeindex/index.go:234-274 | Each single operation, with any key of the type: its answer is right, and the index goes on standing for the plain map if and only if it does not set the greatest key |
| RangeIndex.Run | internal/rangeindex/index.go:234-292 | Any run of `Set`, `Delete`, `SetIfAbsent` and `Clear` agrees with a plain map at every key, with every answer right and the index canonical, up to the first operation that sets the greatest key, and ceases to agree with that one |
| RangeIndex.HistoryIndependent | internal/rangeindex/index.go:330-340 | Two histories that give the same map leave identical segments |
| Ways.EdgesJoin | geoparser/geommaker.go:226-256 | Laying a line on without its shared point adds exactly its edges |
| Ways.EdgesReversed | geoparser/geommaker.go:399-402 | Reversing a line keeps its undirected edges |
| Ways.WovenEdges | geoparser/geommaker.go:316-328 | The concatenated line of a group has, with multiplicity, exactly the edges of its ways, and runs from its first to its last point |
| Joining.Compact | geoparser/geommaker.go:286-298 | In place, the ways with at least two points move to the front in order |
| Joining.DeleteAt | geoparser/geommaker.go:264-277 | Either branch, shifting up or down, removes exactly the matched way from the window |
| Joining.ShiftUp | geoparser/geommaker.go:265-270 | The loop over the first half moves everything before the hole up by one |
| Joining.ShiftDown | geoparser/geommaker.go:271-277 | The loop over the second half moves everything after it down by one |
| Joining.FitLaw | geoparser/geommaker.go:225-257 | Which way of laying a way on is taken: the end of the group before its start, as it is before turned round, and none exactly when no ends meet |
| Joining.FindFit | geoparser/geommaker.go:224-258 | The search finds the first way that fits, or that none does |
| Joining.JoinGroup | geoparser/geommaker.go:217-279 | A group grows from the last way until it is closed or no way left has an end in common with its ends; every way used is used once |
| Joining.Join | geoparser/geommaker.go:208-284 | Every way with at least two points is in exactly one group; each group is one continuous line and maximal: closed, or without an end in common with any way of a later group; every member has the index and orientation of its way and either its flag and its line or the opposite flag and the reversed line, less the point shared with its neighbour; the groups are those of the specification |
| Joining.JoinConservesEdges | geoparser/geommaker.go:208-284 | The multiset of undirected edges over all groups' lines is that of the input |
| Polygons.MakeRing | geoparser/geommaker.go:332-366 | The loop that decides on turning the ring decides as the members' orientations, or else the winding, ask for |
| Polygons.RingKeepsGroup | geoparser/geommaker.go:332-366 | The ring of a group has the edges of its input ways and is closed exactly when the group is |
| Orientation.RingDirection | geoparser/geommaker.go:332-366 | When some way has an orientation, the ring keeps the line as laid exactly when every oriented way laid as it was found has the orientation asked for and every one laid backwards has not |
| Orientation.UnorientedRing | geoparser/geommaker.go:361-363 | When none has, it keeps it exactly when the line winds as asked for |
| Orientation.RingWinds | geoparser/geommaker.go:332-366 | The ring winds as asked for, if turning it round changes how it winds and no orientation lies about it |
| Orientation.AreaTurned | geoparser/geommaker.go:369-390 | Turning a line round negates the area it goes round |
| Orientation.AreaRingWinds | geoparser/geommaker.go:332-366 | Wound by that area, the ring of a closed group with an area winds as asked for, unless an orientation lies |
| Orientation.Orientation | geoparser/geommaker.go:369-390 | The loops add up the signed area of the line and give its sign |
| Polygons.PolygonContains | geoparser/geommaker.go:169-194 | True exactly when some point of the ring has an odd number of crossings with the outer ring; `Containment` says what that means |
| Containment.SideLaw | geoparser/geommaker.go:179-180 | Without division: a side from a up to b is crossed from p if and only if a.y <= p.y < b.y and (b.x - a.x)(p.y - a.y) > (p.x - a.x)(b.y - a.y); its direction does not matter |
| Containment.RectangleContains | geoparser/geommaker.go:169-194 | A rectangle contains a ring if and only if one of its points has x0 <= x < x1 and y0 <= y < y1 |
| Containment.ContainsReversed | geoparser/geommaker.go:169-194 | What a ring contains does not depend on the direction it runs in |
| Polygons.AddToMultiPolygon | geoparser/geommaker.go:137-167 | The hole goes to the first polygon that contains it, else to an open first one, else to one without an outer ring, else to a new one |
| Polygons.AddKeeps | geoparser/geommaker.go:137-167 | With valid outers the open-first case is never reached, heads stay in order, at most one polygon has no outer, and just this hole is added |
| Polygons.AddPlaces | geoparser/geommaker.go:137-143 | The hole is in the polygon it belongs to and no other hole moves |
| Polygons.BuildFromOne | geoparser/geommaker.go:83-101 | With one outer way, its ring must be valid and gets every inner group as a hole, in order |
| Polygons.OuterPolygons | geoparser/geommaker.go:105-116 | Exactly the rings that are closed and have four points or more become polygons, in order |
| Polygons.BuildFromSeveral | geoparser/geommaker.go:102-135 | With several, every closed outer group of four points or more heads one polygon, and every inner group is a hole exactly once, of the first that contains it |
| Polygons.BuildPolygon | geoparser/geommaker.go:83-135 | Which of the two applies, when the result is an error, and that the holes of a result have, with multiplicity, exactly the edges of the inner ways and its outer rings exactly those of the ways whose groups make a valid one |
| Polygons.RingsKeepEdges | geoparser/geommaker.go:94-97 | The rings made of all groups have the edges of the ways in the groups |
| Polygons.ValidKeepEdges | geoparser/geommaker.go:105-116 | The valid rings among them have the edges of the ways in their groups |
| Polygons.AssembledConserves | geoparser/geommaker.go:102-135 | However the holes are distributed, no edge is lost, doubled or invented |
| Interning.DedupMap.constructor | cachesaver/save/v2/strings.go:11-16 | The empty string has id 0 |
| Interning.DedupMap.Add | cachesaver/save/v2/strings.go:19-27 | A known string keeps its id, a new one gets the next; ids stay a bijection onto 0..n-1 if and only if they still fit 32 bits |
| Interning.DedupMap.Len | cachesaver/save/v2/strings.go:30-32 | The number of strings interned |
| Interning.IdUnique | cachesaver/save/v2/strings.go:19-27 | No other id stands for a string |
| Interning.InternAllById | cachesaver/save/v2/strings.go:19-27 | After any sequence of `Add`, exactly the strings added have ids, each one, and ids given out before still stand |
| Interning.InternAgain | cachesaver/save/v2/save.go:63-77 | Adding strings a second time changes nothing |
| Interning.BuildStringIndex | cachesaver/save/v2/strings.go:58-85 | In whatever order the map is walked, the index holds the offset of every string by id and the block its bytes and a NUL, one after the other |
| Interning.Reverse | cachesaver/save/v2/strings.go:62-66 | Walking the map in any order fills every id with its string |
| Interning.FillBlock | cachesaver/save/v2/strings.go:76-83 | The copying loop fills the block with the strings and their terminators |
| Interning.WriteEntry | cachesaver/save/v2/strings.go:79-82 | One turn appends a string and its terminator |
| Interning.EntryAt | cachesaver/save/v2/strings.go:68-82 | Each string and its terminator lie at its offset |
| Interning.ReadBackById | cachesaver/save/v2/load.go:274-287 | Reading an id gives its string up to the first NUL: the string itself if and only if it has none |
| Interning.ReadStrAny | cachesaver/save/v2/load.go:274-287 | Whatever the index and the block hold: empty for id 0 and past the block, otherwise what lies at the offset up to the first NUL or the end |
| Interning.ReadStr | geocoder/locator_disk.go:105-126 | On a file that holds the block, the disk read gives the first 512 bytes of the string up to the first NUL |
| Interning.ShortenedWhole | geocoder/locator_disk.go:105-126 | That is the string itself if and only if it is NUL-free and at most 512 bytes long |
| CachePoints.MarshalBinary | cachesaver/save/v2/pointdata.go:34-43 | Writing by position yields the 21-byte record |
| CachePoints.RecordRoundTrip | cachesaver/save/v2/pointdata.go:34-61 | A record reads back, whatever follows it; a shorter one is an error, nothing at all the zero record |
| CachePoints.StringsDedup.constructor | cachesaver/save/v2/strings.go:45-54 | All five categories share one new map |
| CachePoints.StringsDedup.Number | cachesaver/save/v2/save.go:53-57 | Registering a point interns its five strings and numbers them by the resulting table |
| CachePoints.TableGrows | cachesaver/save/v2/save.go:42-58 | Ids given to earlier points stand in the final table |
| CachePoints.Register | cachesaver/save/v2/save.go:42-58 | The first pass leaves the table of all strings of all points |
| CachePoints.Fill | cachesaver/save/v2/save.go:63-77 | The second pass leaves the table as it is and gives every point its coordinates, its weight and the ids of its strings |
| CachePoints.ResolvedRoundTrip | cachesaver/save/v2/load.go:259-271 | A saved point's data is resolved to itself if and only if none of its strings has a NUL |
| CacheZones.BuildZonesSection | cachesaver/save/v2/save.go:140-172 | Regions and countries are grouped in order; a kind without zones gets no blob |
| CacheZones.ZonesSurvive | cachesaver/save/v2/load.go:290-317 | The trip through the file keeps regions and countries, each in the order in which they enter their border tree, and drops all others |
| CacheZones.ParsedKinds | cachesaver/save/v2/load.go:290-317 | Of any section exactly the blobs of types 1 and 2 are taken, each type in order |
| CacheFile.FileParts | cachesaver/save/v2/save.go:18-30 | Every section of a file lies where the sizes before it say, after RGEO and level 2 |
| CacheFile.WriteParts | cachesaver/save/v2/save.go:110-129 | The sections go out in order; a failed write leaves a proper front of the file |
| CacheFile.Save | cachesaver/save/v2/save.go:31-137 | Interning, index, marshalling and layout together produce the specified file, or stop without it |
| CacheFile.SaveV2 | cachesaver/save.go:32-44 | After success the sink has gained exactly the file; after failure a proper front of it, or at most its first eight bytes when a message cannot be encoded |
| CacheFile.DecodeIndex | cachesaver/save/v2/load.go:193-202 | The decoded offset index is the one that was written |
| CacheFile.LoadMmap | cachesaver/save/v2/load.go:158-244 | On a saved file the walk finds every section: the string index, the string block's offset, zones, metadata and the point index |
| CacheStream.LoadStrings | cachesaver/save/v2/load.go:46-57 | Reading only whole words of the index loses nothing of a saved file |
| CacheStream.Load | cachesaver/save/v2/load.go:25-136 | On a saved file the sequential reader gets the string table, the number of points, zones and metadata, and stands at the tree |
| CacheStream.ReadOffsets | cachesaver/save/v2/load.go:85-93 | The offset table is read back word by word |
| CacheStream.Points | cachesaver/save/v2/load.go:78-114 | The points iterator hands over every point's data in original order, without coordinates, until the consumer stops |
| CacheStream.NulCutWhole | cachesaver/save/v2/load.go:259-287 | What it hands over is a point's own data if and only if its strings have no NUL |
| Nearest.WinnerIffSettled | geocoder/locator.go:56-71 | The fold's pick is the one match that displaced the best before it and that no later match is closer or heavier than |
| Nearest.SameWeightClosest | geocoder/locator.go:59-64 | With equal weights a closest match is picked, the first visited of them, whatever the visiting order |
| Nearest.ClosestAndHeaviest | geocoder/locator.go:61-64 | If some match is at once a closest and a heaviest one, the pick is as close and as heavy, whatever the visiting order |
| Nearest.ClosestIffNonIncreasing | geocoder/locator_disk.go:40-48 | Of the fold alone: for given weights in visiting order, the pick is a closest match for all distances if and only if the weights never rise |
| Nearest.HeavierWins | geocoder/locator.go:61-64 | Of the fold alone: a heavier match displaces a closer one |
| Geocoder.Fold | geocoder/locator.go:57-71 | Updating the captured point and distance call by call yields the fold's pick |
| Geocoder.RGeoCoder.FindInRadius | geocoder/locator.go:56-112 | The answer is that of the fold over exactly the points within the radius; field by field: with nothing there the region and country the trees name, if any, and all else blank; otherwise the own data of a point of the disc than which no later match is closer or heavier, with the tree's region if it has none and the tree's country |
| Geocoder.AnswerMeaning | geocoder/locator.go:73-111 | The same of any exact reporting order: which fields come from the point and which from the trees, and when there is no answer |
| Geocoder.NearestIffHeaviest | geocoder/locator_disk.go:34-48 | The documented "closest": over every index on the points, for every place and radius, the point picked is a nearest one of all, if and only if at every point's place lies one of the heaviest points |
| Geocoder.HeaviestIfEqual | geocoder/locator_disk.go:34-48 | Equal weights satisfy that condition, and among points at pairwise different places nothing else does |
| Geocoder.NearestMissed | geocoder/locator.go:56-71 | For any point whose place has no heaviest point: an index and a radius with which, asked at that place, a point elsewhere is picked |
| Geocoder.FartherAddress | geocoder/locator.go:56-90 | The failing input: of any two points at different places, asked at the lighter one's place within reach of the heavier, the address is the heavier one's, though the lighter one is nearest |
| Geocoder.SameWeightNearest | geocoder/locator.go:52-71 | When all points weigh the same and one is within the radius, the address is that of a point nearest among all points |
| Geocoder.RGeoCoderDisk.ResolvePointData | geocoder/locator_disk.go:93-102 | A record of a saved point resolves to its strings, each cut as the disk read cuts it |
| Geocoder.RGeoCoderDisk.FindInRadius | geocoder/locator_disk.go:35-90 | The disk answer is the in-memory answer over the same points with their strings cut; field by field as in memory |
| EndToEnd.LoadGeoCoderFromFileDisk | geocoder/loading_disk.go:19-87 | A geocoder is made only of a file that begins with RGEO and level 2; of a saved file always, with the border trees of its zones |
| EndToEnd.FindOnDisk | geocoder/loading_disk.go:19-87 | Loading a saved file and asking it gives the answer over the saved points |
| EndToEnd.StreamBack | cachesaver/save/v2/load.go:25-136 | Reading a saved file in one pass gives the data of the saved points, the zones and the metadata |
| EndToEnd.SaveAndStream | cachesaver/save/v2/save.go:31-137 | Whatever is saved whole is read back in one pass: data in original order, with strings cut at their first NUL, zones and metadata |
| EndToEnd.SaveAndFind | geocoder/locator_disk.go:35-90 | Saved and loaded again, the disk geocoder answers as the in-memory one over the same points, node size and border trees whenever every string is NUL-free and at most 512 bytes long; both answers are given field by field |
| Tee.StepKeeps | geoparser/save.go:110-158 | Every step of every goroutine keeps the invariant |
| Tee.CallsCount | geoparser/save.go:138-154 | Over any run from a state that satisfies the invariant: the loop body gets one item for each call, and none after it has stopped |
| Tee.IdleUntilStarted | geoparser/save.go:138-141 | An iterator is idle exactly until it is ranged over |
| Tee.Safety | geoparser/save.go:117-158 | In every reachable state each iterator has received a prefix of the source, in order and complete; its loop body got as many first items as it was called for, went on after all but perhaps the last, and has quit exactly when it stopped at that one; nothing is drained unless it quit; send counts differ by at most one; no iterator is ahead of another by more than the capacity and one |
| Tee.RunsEnd | geoparser/save.go:117-158 | Every run over a finite source ends, whatever the interleaving |
| Tee.RestIff | geoparser/save.go:117-158 | Nothing can move any more if and only if all is done or the producer waits on an iterator that was never started, its channel full |
| Tee.Liveness | geoparser/save.go:127-158 | With every iterator started, a run that can go no further has given the whole source to each iterator that did not quit, and all goroutines have ended |
| Tee.NeverStarted | geoparser/save.go:127-132 | If an iterator is never started, the others get the whole source if and only if it fits that iterator's channel |
| Tee.QuitNeverBlocks | geoparser/save.go:144-151 | An iterator that has quit never holds the producer up |

## Left out

- Sampling.WindowSound: exact reals; that the machine's logarithm, exponential, square root and rounding meet `SoundSampler` is assumed of the sampler, not proved.
- Floating-point rounding and NaN: coordinates, distances and comparisons are exact, and `FloatCodec` is only required to bring stored coordinates back.
- Node sizes below -1 are excluded: every builder requires at least -1, also over no points.
- Bush.KDBush.constructor: the index shares the caller's slice of points in the source; later changes by the caller are not modelled.
- DiskQuery.Range: files that were not written by `BuildDisk` are covered for termination and error results only, and offsets are unbounded integers rather than 64-bit ones; a payload of negative length counts as a read error.
- The pool of read buffers in kdbush/kdbush_disk.go and memory mapping itself; a mapped file is a byte sequence.
- RangeIndex.Run: stops at the first operation that sets the greatest key of its type; what that operation does is stated by `Index.Set`, `Index.SetIfAbsent`, `TopLost` and `TopSetKeepsIff`, and what later ones do to an index that has stopped being valid is not.
- The B-tree library under the range index is a sorted sequence with the same operations; the mutex makes each operation one step.
- `Ranges` and `Contains` of the range index, which only repeat `CollectRanges` and `Get`.
- Looking up ways and making their lines in `buildPolygon` (geoparser/geommaker.go:10-81); ways are taken as found. `reorient` is not modelled; the winding of a ring is a parameter, which `Orientation.AreaWinding` is one instance of.
- Joining.Join: the point arrays behind lines are values, so that trimming a line never shows through another slice of the same array.
- Interning.BuildStringIndex: string blocks of 4 GiB or more are excluded, as string offsets have 32 bits.
- CacheFile.Save: points whose string block reaches 4 GiB are excluded.
- CacheFile.SaveV2: points whose string block reaches 4 GiB are excluded.
- Interning.ReadStr: ids beyond the string index are excluded.
- Protobuf encoding: `Wire` only assumes that what was encoded decodes to itself, which for zone coordinates, stored in single precision, and creation dates, stored to the second, holds of already rounded values.
- CacheStream.Points: its points have no coordinates, as in the source, so only their data is stated; on a file with a negative count or an id beyond the index, which `Save` never writes, the model ends with an error.
- Geocoder.RGeoCoderDisk.FindInRadius: requires a file that backs the points; other files are excluded.
- Border trees (internal/bordertree): an opaque function of the point, determined by the zones in the order of insertion.
- EndToEnd.SaveAndFind: requires section sizes below 2^32 bytes, as the header has 32-bit sizes for them.
- Ranging over one of `Tee`'s iterators twice, and panics in loop bodies.
- Tee.RunsEnd: finite sources only; an infinite source never lets the producer finish.
- The v1 cache format, server, command line, parser and localisation, `server_rs`, and `orthoDist`: wrappers over libraries or repetitions of what is modelled.
