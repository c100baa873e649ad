# Hedge kernel in Dafny

A model of the half-edge mesh kernel of the Hedge plugin for Unreal Engine 4, with proofs about it.
The model covers:

- the typed, generation-stamped element handles;
- the four element records;
- the sparse element buffers;
- the kernel operations that keep the records' cross-references consistent;
- the kernel tests;
- the navigation proxies.

| file | module | what it models |
|---|---|---|
| `Handles.dfy` | `Handles` | `FElementIndex` and its four kinds: constructors, truthiness, `==`/`!=`, `<`/`>`, hashing, archiving and `ToString`. |
| `Elements.dfy` | `Elements` | `FMeshElement`, `FHalfEdge`, `FFace`, `FFaceTriangle`, `FVertex` and `FPoint` with their default member initialisers. |
| `Buffers.dfy` | `Buffers` | `THedgeElementBuffer`, in two forms. `Store` is the value of a buffer: its slots, plus a validity generation that the model adds to the buffer (see Left out). The functions on `Store` say what each buffer operation does. The class `ElementBuffer` does the same in place, and each of its methods is proved to match its function. |
| `Topology.dfy` | `Topology` | The kernel's four buffers as one value, `Mesh`, and each kernel operation as a function on it. The kernel invariants are stated here, and each operation is proved to preserve them. |
| `Kernel.dfy` | `Kernel` | `UHedgeKernel` as a class over four `ElementBuffer` objects. Every mutating method ensures `Model() == Topology.Op(old(Model()), …)`, so the lemmas of `Topology` apply to the kernel. |
| `KernelTests.dfy` | `KernelTests` | The three kernel tests as methods that make the same calls on a fresh kernel and return what the tests check. What each test expects is stated in the method's `ensures`. |
| `Proxies.dfy` | `Proxies` | `FPxElement` and the four proxy kinds: reads through a kernel reference, the navigation functions, `IsBoundary`, `GetPoints`/`GetVertices` and `SetPosition`. |

Handles and buffers:

- A handle is a valid reference when:
  - its slot is allocated;
  - its generation is either the ignored generation 0 or the buffer's current generation.
- The model keeps one validity generation per buffer; `THedgeElementBuffer` itself holds only its sparse array. A buffer starts at generation 1. Only compaction bumps it.
- `Add` stores the element in a free slot when one exists, and otherwise appends it.
  - Which free slot `TSparseArray` reuses is left open.
  - The handle it returns is stamped with the buffer's generation. See Findings for how this differs from the code.

The kernel invariant `Topology.Consistent` has four parts:

- No buffer is at the ignored generation.
- Every allocated half-edge has a valid twin other than itself, and the twin's adjacent link designates it back.
- Every vertex handle a point lists is a valid vertex whose point link designates that point.
- Every vertex whose point handle is truthy sits on a valid point that lists it.

Every kernel operation except the raw `Add` overloads preserves it, including `Defrag`. The raw overloads store whatever element they are given:

- `Add` of a face keeps the invariant.
- `Add` of a vertex is proved to keep it when the vertex's point handle is falsy. A vertex on a truthy point that does not list it breaks it.
- `Add` of a point is proved to keep it when the point lists no vertex.
- `Add` of a half-edge never keeps it (`Topology.AddEdgeBreaksTwins`). No live edge's twin link can designate the slot that was free, so the new edge has no twin naming it back. `MakeEdgePair` is the operation that adds edges consistently.

`Defrag` works in two steps:

1. It compacts the four buffers. Compaction keeps order, moves each element to its rank and bumps the generation.
2. It rewrites every cross-reference through the four remap tables. A link is rewritten exactly when it was valid before.

The kernel's invalid offset is 0, and slot 0 is a real slot. So a default `(0, 0)` link points at slot 0 whenever slot 0 is allocated. The model keeps this.

Choices where the code is incomplete or leaves a choice open:

- Handle `==` is strict: the generation is compared even when one side ignores it (`HedgeTypes.h:96-100`).
- The invalid offset is 0 (`HedgeTypes.h:37`).
- `FPoint::Vertices` is declared as an array of vertices (`HedgeElements.h:115`). The proxies and the tests use it as a set of vertex handles, and the model keeps a `set<VertexIndex>`.
- The bodies of `Remove`, `Defrag`, `MakeEdgePair`, `MakeFace` and `ConnectEdges` in `Private/HedgeKernel.cpp` are empty stubs. The model gives these operations the behaviour their header comments and the kernel tests call for.
  - The header declares the four `Remove` overloads (`HedgeKernel.h:102-105`) without saying what they do. The cascade below is the model's choice.
  - Removing a point nulls the point link of each vertex it lists.
  - Removing a vertex drops it from its point and clears the edge it starts.
  - Removing a face clears the face of the edges on its root loop.
  - Removing a half-edge clears the links of its neighbours to it and repairs its face's root.
  - A face rooted at the removed edge moves its root to that edge's next, else to its prev. A link qualifies only when it is live, is not the null handle, and names neither the edge nor its twin, which goes too. When neither link qualifies, the face is left with the invalid root.
  - When that half-edge was its origin vertex's own edge, the vertex has no outgoing edge left and is removed as a vertex is removed.
  - Removing a half-edge-pair member removes its twin the same way.
- `MakeEdgePair` takes the face its first edge is tagged with, as the tests call it (`KernelOperationsTest.cpp:86-88`). The header declares it with no arguments.

## Model

| member | source | states |
|---|---|---|
| Handles.Invalid | Plugins/Hedge/Source/Hedge/Public/HedgeTypes.h:57-61 | the default handle has the invalid offset and the ignored generation, and is falsy |
| Handles.FromOffset | Plugins/Hedge/Source/Hedge/Public/HedgeTypes.h:63-67 | the one-argument constructor keeps the offset, ignores the generation, and is truthy exactly when the offset is not 0 |
| Handles.FromOffsetAndGeneration | Plugins/Hedge/Source/Hedge/Public/HedgeTypes.h:69-73 | the two-argument constructor keeps both fields |
| Handles.Reset | Plugins/Hedge/Source/Hedge/Public/HedgeTypes.h:85-89 | a reset handle is the default handle and is falsy |
| Handles.Load | Plugins/Hedge/Source/Hedge/Public/HedgeTypes.h:124-128 | reading from an archive replaces the offset and leaves the generation as it was |
| Handles.Decimal | Plugins/Hedge/Source/Hedge/Public/HedgeTypes.h:117-122 | the numeral `%d` prints: decimal digits only, no leading zero |
| Handles.DecimalRoundTrip | Plugins/Hedge/Source/Hedge/Public/HedgeTypes.h:117-122 | reading the numeral back gives the offset |
| Handles.ToStringNamesOffset | Plugins/Hedge/Source/Hedge/Public/HedgeTypes.h:117-122 | `ToString` is "Invalid" exactly for offset 0 and otherwise the offset in decimal; offset 42 prints as "42" |
| Handles.EqualIsIdentity | Plugins/Hedge/Source/Hedge/Public/HedgeTypes.h:91-100 | `==` holds exactly when offset and generation both match, and `!=` is its negation |
| Handles.GenerationSeparates | Plugins/Hedge/Source/Hedge/Public/HedgeTypes.h:96-100 | handles with the same offset and different generations are unequal |
| Handles.OrderIgnoresGeneration | Plugins/Hedge/Source/Hedge/Public/HedgeTypes.h:102-105 | `<` does not order handles of one offset; they are equal exactly when their generations match |
| Handles.LessIsStrictOrder | Plugins/Hedge/Source/Hedge/Public/HedgeTypes.h:102-105 | `<` is irreflexive, transitive and asymmetric |
| Handles.HashDependsOnOffsetOnly | Plugins/Hedge/Source/Hedge/Public/HedgeTypes.h:142-145 | equal handles hash alike; hashes agree exactly when the offsets agree |
| Handles.SaveLoadRoundTrip | Plugins/Hedge/Source/Hedge/Public/HedgeTypes.h:124-128 | saving and loading into a default handle gives back the handle exactly when its generation is the ignored one |
| Handles.HandleSmokeTest | Plugins/Hedge/Source/Hedge/Private/Tests/ElementHandleTest.cpp:15-53 | the handle test's expectations: default falsy, offset 1 truthy, reset falsy, strict equality on offset and generation |
| Handles.GreaterAsWrittenIsReversed | Plugins/Hedge/Source/Hedge/Public/HedgeTypes.h:107-110 | `>` as written holds for offsets 1 > 2 and fails for 2 > 1 |
| Handles.GreaterIsConverseOfLess | Plugins/Hedge/Source/Hedge/Public/HedgeTypes.h:107-110 | the corrected `>` is the converse of `<`, compares offsets, and excludes `<` |
| Elements.StatusCode | Plugins/Hedge/Source/Hedge/Public/HedgeElements.h:10-17 | Active is encoded as 0x0000 and Inactive as 0x8000 |
| Elements.DefaultMeta | Plugins/Hedge/Source/Hedge/Public/HedgeElements.h:23-35 | a new element is Active, has tag 0 and generation 1, which is not the ignored generation |
| Elements.DefaultHalfEdge | Plugins/Hedge/Source/Hedge/Public/HedgeElements.h:41-55 | a default half-edge has all five links invalid, so it is a boundary edge |
| Elements.DefaultFaceTriangle | Plugins/Hedge/Source/Hedge/Public/HedgeElements.h:79-85 | a default triangle has three invalid vertices |
| Elements.DefaultFace | Plugins/Hedge/Source/Hedge/Public/HedgeElements.h:64-72 | a default face has no root edge and no triangles |
| Elements.DefaultVertex | Plugins/Hedge/Source/Hedge/Public/HedgeElements.h:93-100 | a default vertex has no point and no edge |
| Elements.PointAt | Plugins/Hedge/Source/Hedge/Public/HedgeElements.h:109-116 | a point built from a position keeps it and lists no vertices |
| Elements.DefaultPoint | Plugins/Hedge/Source/Hedge/Public/HedgeElements.h:109-116 | the default point is the point at the origin |
| Buffers.EmptyStore | Plugins/Hedge/Source/Hedge/Private/HedgeKernel.h:20-23 | an empty buffer has no slots and starts at generation 1, a generation that is not ignored |
| Buffers.Count | Plugins/Hedge/Source/Hedge/Private/HedgeKernel.h:28 | `Num` never exceeds the number of slots |
| Buffers.CountFull | Plugins/Hedge/Source/Hedge/Private/HedgeKernel.h:28 | `Num` equals the number of slots exactly when every slot is allocated |
| Buffers.CountEmpty | Plugins/Hedge/Source/Hedge/Private/HedgeKernel.h:28 | `Num` is 0 exactly when no slot is allocated |
| Buffers.MapStore | Plugins/Hedge/Source/Hedge/Private/HedgeKernel.h:112-128 | rewriting every element keeps the slot count and generation, rewrites each allocated slot and leaves free slots free |
| Buffers.AddAtProperties | Plugins/Hedge/Source/Hedge/Private/HedgeKernel.h:36-46 | `Add` takes a free slot, or the end when none is free, stores the element there, touches no other slot, keeps the generation and raises `Num` by one; the new slot is valid at the buffer generation |
| Buffers.AddAtDense | Plugins/Hedge/Source/Hedge/Private/HedgeKernel.h:36-46 | on a buffer without gaps, `Add` appends, and the buffer still has no gaps |
| Buffers.SingleFreeSlotIsReused | Plugins/Hedge/Source/Hedge/Private/HedgeKernel.h:36-46 | when exactly one slot is free, `Add` reuses it |
| Buffers.TwoFreeSlots | Plugins/Hedge/Source/Hedge/Private/HedgeKernel.h:28 | two free slots lower `Num` by at least two |
| Buffers.RemoveAtProperties | Plugins/Hedge/Source/Hedge/Private/HedgeKernel.h:54-58 | `Remove` frees exactly that slot, lowers `Num` by one, and no handle at that offset stays valid |
| Buffers.UpdateAtProperties | Plugins/Hedge/Source/Hedge/Private/HedgeKernel.h:48-52 | writing through the reference `Get` returns keeps the allocation and `Num`, and stores the new value |
| Buffers.PackedShape | Plugins/Hedge/Source/Hedge/Private/HedgeKernel.h:112-114 | compaction keeps exactly the allocated elements, with no gaps |
| Buffers.PackedAt | Plugins/Hedge/Source/Hedge/Private/HedgeKernel.h:112-114 | the element at slot i lands at offset Rank(i), the number of allocated slots before i |
| Buffers.RankPreservesOrder | Plugins/Hedge/Source/Hedge/Private/HedgeKernel.h:112-114 | compaction keeps the relative order of the surviving elements |
| Buffers.RankOnto | Plugins/Hedge/Source/Hedge/Private/HedgeKernel.h:112-114 | every offset of the compacted buffer comes from some allocated slot |
| Buffers.RemapMovesValidHandles | Plugins/Hedge/Source/Hedge/Private/HedgeKernel.h:112-128 | the remap table covers every valid handle, sends it to the new place of its element at the next generation, and keeps every other handle |
| Buffers.MapStoreProperties | Plugins/Hedge/Source/Hedge/Private/HedgeKernel.h:112-128 | the rewrite pass keeps allocation, generation and `Num`, and rewrites each element by the given function |
| Buffers.CompactedProperties | Plugins/Hedge/Source/Hedge/Private/HedgeKernel.h:112-128 | compaction keeps `Num`, packs the elements into the first `Num` slots, and invalidates every handle stamped with the old generation |
| Buffers.AsWrittenAddHandleOutlivesCompaction | Plugins/Hedge/Source/Hedge/Private/HedgeKernel.h:36-46 | a handle with the ignored generation, which `Add` returns as written, still validates after compaction and then names a different element |
| Buffers.StampedHandleGoesStale | Plugins/Hedge/Source/Hedge/Private/HedgeKernel.h:36-46 | a handle stamped with the buffer generation is valid until the next compaction and invalid after it |
| Buffers.ElementBuffer.constructor | Plugins/Hedge/Source/Hedge/Private/HedgeKernel.h:20-23 | a new buffer is empty, at the first generation, with the given default element |
| Buffers.ElementBuffer.Reset | Plugins/Hedge/Source/Hedge/Private/HedgeKernel.h:30-34 | `Reset` empties the buffer and keeps its generation |
| Buffers.ElementBuffer.Add | Plugins/Hedge/Source/Hedge/Private/HedgeKernel.h:42-46 | `Add` stores the element in a slot it may allocate and returns a handle to it stamped with the buffer generation |
| Buffers.ElementBuffer.Get | Plugins/Hedge/Source/Hedge/Private/HedgeKernel.h:48-52 | `Get` checks that the slot is allocated and returns the element stored there, whatever the handle generation |
| Buffers.ElementBuffer.Update | Plugins/Hedge/Source/Hedge/Private/HedgeKernel.h:48-52 | a write through the reference `Get` returns replaces that slot only |
| Buffers.ElementBuffer.Remove | Plugins/Hedge/Source/Hedge/Private/HedgeKernel.h:54-58 | `Remove` checks that the slot is allocated and frees it |
| Buffers.ElementBuffer.New | Plugins/Hedge/Source/Hedge/Private/HedgeKernel.h:60-64 | `New` adds a default element and returns its handle and the element |
| Buffers.ElementBuffer.Compact | Plugins/Hedge/Source/Hedge/Private/HedgeKernel.h:112-128 | the compaction loop packs the allocated slots in order, bumps the generation, and returns exactly the remap table |
| Buffers.ElementBuffer.Rewrite | Plugins/Hedge/Source/Hedge/Private/HedgeKernel.h:112-128 | the rewrite loop applies the function to every allocated slot and nothing else |
| Topology.EmptyMesh | Plugins/Hedge/Source/Hedge/Private/HedgeKernel.h:77-84 | a new kernel has four empty buffers at the first generation, and satisfies the invariants |
| Topology.ExtendsKeepsValid | Plugins/Hedge/Source/Hedge/Private/HedgeKernel.h:36-46 | a buffer that keeps every element in place keeps every valid handle valid, with the same element |
| Topology.AddAtExtends | Plugins/Hedge/Source/Hedge/Private/HedgeKernel.h:36-46 | `Add` keeps every existing element in place |
| Topology.SameTwinsKeepsConsistency | Plugins/Hedge/Source/Hedge/Public/HedgeElements.h:53-54 | twin consistency only depends on allocation, generation and the adjacent links |
| Topology.SamePointLinksKeepsConsistency | Plugins/Hedge/Source/Hedge/Public/HedgeElements.h:96-115 | both directions of the point-vertex links only depend on the points and on the vertices' allocation and point links |
| Topology.AddVertexPreservesConsistency | Plugins/Hedge/Source/Hedge/Private/HedgeKernel.h:97-100 | adding a vertex with a falsy point handle keeps the invariants |
| Topology.AddFacePreservesConsistency | Plugins/Hedge/Source/Hedge/Private/HedgeKernel.h:97-100 | adding a face keeps the invariants |
| Topology.AddEdgeBreaksTwins | Plugins/Hedge/Source/Hedge/Private/HedgeKernel.h:97 | a half-edge added raw to a kernel whose twins are consistent has no twin naming it back, so the twin invariant fails |
| Topology.AddPointPreservesConsistency | Plugins/Hedge/Source/Hedge/Private/HedgeKernel.h:97-100 | adding a point that lists no vertex keeps the invariants |
| Topology.SetRootPreservesConsistency | Plugins/Hedge/Source/Hedge/Private/Tests/KernelOperationsTest.cpp:94 | setting a face root edge through `Get` keeps the invariants |
| Topology.MakeEdgePairCreatesTwins | Plugins/Hedge/Source/Hedge/Private/HedgeKernel.h:130-134 | `MakeEdgePair` creates two new distinct edges, each the other's adjacent edge, the first tagged with the face; `NumEdges` rises by two and nothing else changes |
| Topology.MakeEdgePairOnDenseBuffer | Plugins/Hedge/Source/Hedge/Private/HedgeKernel.h:130-134 | on an edge buffer without gaps the pair goes to the two slots past the end |
| Topology.MakeEdgePairPreservesConsistency | Plugins/Hedge/Source/Hedge/Private/HedgeKernel.h:130-134 | `MakeEdgePair` keeps the invariants |
| Topology.ConnectEdgesLinks | Plugins/Hedge/Source/Hedge/Private/HedgeKernel.h:145-157 | `ConnectEdges` makes A's next B and B's prev A, creates a vertex on the point that starts B, registers it with a valid point, and changes nothing else |
| Topology.ConnectEdgesPreservesConsistency | Plugins/Hedge/Source/Hedge/Private/HedgeKernel.h:145-157 | `ConnectEdges` on a valid or falsy point keeps the invariants; A's next and B's prev then form a mutual pair, and every other mutual pair that does not start at A or end at B stays mutual |
| Topology.ConnectEdgesKeepsPointLinks | Plugins/Hedge/Source/Hedge/Private/HedgeKernel.h:145-157 | on a valid or falsy point, the new vertex is listed by its point, and every earlier point-vertex link survives in both directions |
| Topology.ConnectEdgesKeepsMutual | Plugins/Hedge/Source/Hedge/Private/HedgeKernel.h:145-157 | A's next and B's prev form a mutual pair when both handles are valid, and every mutual pair that does not start at A or end at B stays mutual |
| Topology.Walk | Plugins/Hedge/Source/Hedge/Private/HedgeKernel.h:136-143 | a walk from an edge has at most `fuel` steps, starts at that edge, and visits only allocated edges |
| Topology.WalkFollowsNext | Plugins/Hedge/Source/Hedge/Private/HedgeKernel.h:136-143 | each step of the loop walk follows a valid next link to an edge other than the root, and a walk that ends early stops at an edge with no onward link |
| Topology.StampFaceProperties | Plugins/Hedge/Source/Hedge/Private/HedgeKernel.h:136-143 | stamping sets the face of exactly the edges on the loop and keeps the allocation |
| Topology.MakeFaceProperties | Plugins/Hedge/Source/Hedge/Private/HedgeKernel.h:136-143 | `MakeFace` creates a face rooted at the given edge, with no triangles, sets that face on every edge of the root loop, and changes no other edge, vertex or point |
| Topology.MakeFacePreservesConsistency | Plugins/Hedge/Source/Hedge/Private/HedgeKernel.h:136-143 | `MakeFace` keeps the invariants |
| Topology.TriangleLoop | Plugins/Hedge/Source/Hedge/Private/Tests/KernelOperationsTest.cpp:125-127 | three distinct edges linked by next into a cycle form the loop [a, b, c] of the first |
| Topology.Forget | Plugins/Hedge/Source/Hedge/Private/HedgeKernel.h:102-105 | forgetting an offset keeps exactly the handles of the other offsets |
| Topology.RemoveVertexProperties | Plugins/Hedge/Source/Hedge/Private/HedgeKernel.h:104 | removing a vertex frees it, drops it from its point and clears its edge origin; an invalid handle changes nothing |
| Topology.RemoveVertexKeepsPointLinks | Plugins/Hedge/Source/Hedge/Private/HedgeKernel.h:104 | removing a vertex keeps both directions of the point-vertex links and leaves no point listing it |
| Topology.RemoveVertexPreservesConsistency | Plugins/Hedge/Source/Hedge/Private/HedgeKernel.h:104 | removing a vertex keeps the invariants and leaves no point listing it |
| Topology.DetachVerticesProperties | Plugins/Hedge/Source/Hedge/Private/HedgeKernel.h:105 | detaching changes the point link of exactly the listed vertices and frees none |
| Topology.RemovePointProperties | Plugins/Hedge/Source/Hedge/Private/HedgeKernel.h:105 | removing a point frees it and nulls the point link of each vertex it lists; an invalid handle changes nothing |
| Topology.RemovePointPreservesConsistency | Plugins/Hedge/Source/Hedge/Private/HedgeKernel.h:105 | removing a point keeps the invariants: the vertices it listed end with a falsy point handle |
| Topology.NulledPointLinkDesignatesPointZero | Plugins/Hedge/Source/Hedge/Public/HedgeTypes.h:37 | after point 1 is removed, its vertex's nulled point link designates the live point 0, which does not list that vertex; both meshes satisfy the invariants |
| Topology.RemoveFaceProperties | Plugins/Hedge/Source/Hedge/Private/HedgeKernel.h:103 | removing a face frees it and clears the face of the edges on its root loop; an invalid handle changes nothing |
| Topology.RemoveFacePreservesConsistency | Plugins/Hedge/Source/Hedge/Private/HedgeKernel.h:103 | removing a face keeps the invariants |
| Topology.ClearPrevOf | Plugins/Hedge/Source/Hedge/Private/HedgeKernel.h:102 | clears only the prev link of a valid neighbour that links back to the edge |
| Topology.ClearNextOf | Plugins/Hedge/Source/Hedge/Private/HedgeKernel.h:102 | clears only the next link of a valid neighbour that links on to the edge |
| Topology.SuccessorRoot | Plugins/Hedge/Source/Hedge/Private/HedgeKernel.h:102 | the new root of a face losing its root edge is that edge's next, else its prev, else none; a chosen root is live, not null, and neither the edge nor its twin |
| Topology.DetachEdgeEdges | Plugins/Hedge/Source/Hedge/Private/HedgeKernel.h:102 | detaching an edge frees exactly its slot, only clears links of other edges that referred to it, and keeps every next or prev link that did not designate it |
| Topology.DetachEdgeLinks | Plugins/Hedge/Source/Hedge/Private/HedgeKernel.h:102 | detaching repairs the face root; when the edge was its origin vertex's own edge that vertex is freed and dropped from its point, otherwise no vertex or point changes; no face or point is freed |
| Topology.DetachEdgeKeepsPointLinks | Plugins/Hedge/Source/Hedge/Private/HedgeKernel.h:102 | detaching an edge keeps both directions of the point-vertex links |
| Topology.DetachEdgeKeepsMutual | Plugins/Hedge/Source/Hedge/Private/HedgeKernel.h:102 | detaching an edge keeps every mutual next/prev pair that does not involve it |
| Topology.RemoveEdgeRemovesTwin | Plugins/Hedge/Source/Hedge/Private/HedgeKernel.h:102 | removing a valid edge of a consistent kernel removes it and its twin, and frees exactly the vertices whose own edge was one of the two; no face is freed and the surviving vertices are unchanged; a face rooted at either edge moves to that edge's surviving next, else its surviving prev, and is left with the invalid root when neither survives; a root it keeps is a live edge |
| Topology.RemoveEdgeFreesPair | Plugins/Hedge/Source/Hedge/Private/HedgeKernel.h:102 | removing a valid edge frees it and its twin and no other edge or face, keeps the generations, and moves the root of a face rooted at either edge to that edge's surviving next, else its surviving prev, else to the invalid root |
| Topology.RemoveEdgeMovesRoots | Plugins/Hedge/Source/Hedge/Private/HedgeKernel.h:102 | the faces of both edges of a removed pair that were rooted at them end up rooted at a survivor of that edge, next before prev, or at the invalid root when none survives |
| Topology.RemoveEdgeMovesEdgeRoot | Plugins/Hedge/Source/Hedge/Private/HedgeKernel.h:102 | the root of the removed edge's face moves to a surviving neighbour of that edge or to none, and the twin's removal leaves it there |
| Topology.RemoveEdgeMovesTwinRoot | Plugins/Hedge/Source/Hedge/Private/HedgeKernel.h:102 | the root of the twin's face moves to a surviving neighbour of the twin or to none |
| Topology.DetachKeepsTwinSurvivors | Plugins/Hedge/Source/Hedge/Private/HedgeKernel.h:102 | after the first edge of a pair is detached, each link of the twin qualifies as a new root exactly when it did before, and a qualifying link is unchanged |
| Topology.RemoveEdgeOntoTwinUnroots | Plugins/Hedge/Source/Hedge/Private/HedgeKernel.h:102 | a face rooted at an edge whose next is its twin, and whose prev is the twin or null, is left with the invalid root, not at the twin's freed slot |
| Topology.RemoveEdgeFreesSoleOrigins | Plugins/Hedge/Source/Hedge/Private/HedgeKernel.h:102 | the vertices a pair removal frees are exactly those whose own edge was one of the pair; when there are none, the vertices and points are unchanged |
| Topology.RemoveEdgeOnlyClearsLinks | Plugins/Hedge/Source/Hedge/Private/HedgeKernel.h:102 | removing an edge can clear, but never redirect, a link of another edge |
| Topology.RemoveEdgePreservesConsistency | Plugins/Hedge/Source/Hedge/Private/HedgeKernel.h:102 | removing an edge keeps the invariants |
| Topology.RemoveEdgeKeepsMutual | Plugins/Hedge/Source/Hedge/Private/HedgeKernel.h:102 | removing an edge pair keeps every mutual next/prev pair between surviving edges |
| Topology.DefragStore | Plugins/Hedge/Source/Hedge/Private/HedgeKernel.h:112-128 | each buffer after `Defrag` is dense and one generation on, and each element moves to its rank |
| Topology.DefragCountsAndStaleness | Plugins/Hedge/Source/Hedge/Private/HedgeKernel.h:112-128 | `Defrag` keeps all four counts and invalidates every handle of the old generations |
| Topology.DefragMovesEdge | Plugins/Hedge/Source/Hedge/Private/HedgeKernel.h:112-128 | every edge keeps its data at its rank, and each of its links that was valid designates the new place of the same element |
| Topology.DefragMovesVertex | Plugins/Hedge/Source/Hedge/Private/HedgeKernel.h:112-128 | every vertex moves to its rank with its point and edge links moved alike |
| Topology.DefragMovesFace | Plugins/Hedge/Source/Hedge/Private/HedgeKernel.h:112-128 | every face moves to its rank with its root edge and triangle vertices moved alike |
| Topology.DefragMovesPoint | Plugins/Hedge/Source/Hedge/Private/HedgeKernel.h:112-128 | every point moves to its rank with its position kept and each listed vertex moved alike |
| Topology.DefragKeepsTwins | Plugins/Hedge/Source/Hedge/Private/HedgeKernel.h:112-128 | the twin links survive `Defrag` |
| Topology.DefragKeepsPointLists | Plugins/Hedge/Source/Hedge/Private/HedgeKernel.h:112-128 | the point lists survive `Defrag` |
| Topology.DefragKeepsVertexLink | Plugins/Hedge/Source/Hedge/Private/HedgeKernel.h:112-128 | a vertex on a truthy point handle is still listed by its moved point after `Defrag` |
| Topology.DefragKeepsVertexLinks | Plugins/Hedge/Source/Hedge/Private/HedgeKernel.h:112-128 | the vertex-to-point links survive `Defrag` |
| Topology.DefragPreservesConsistency | Plugins/Hedge/Source/Hedge/Private/HedgeKernel.h:112-128 | `Defrag` keeps the invariants, and every mutual next/prev pair moves to the ranks of its two edges |
| Kernel.HedgeKernel.constructor | Plugins/Hedge/Source/Hedge/Private/HedgeKernel.h:77-84 | a new kernel holds four empty buffers |
| Kernel.HedgeKernel.GetEdge | Plugins/Hedge/Source/Hedge/Private/HedgeKernel.h:87 | reading an edge at a valid handle gives the element stored at its offset |
| Kernel.HedgeKernel.GetVertex | Plugins/Hedge/Source/Hedge/Private/HedgeKernel.h:89 | reading a vertex at a valid handle gives the element stored at its offset |
| Kernel.HedgeKernel.GetFace | Plugins/Hedge/Source/Hedge/Private/HedgeKernel.h:88 | reading a face at a valid handle gives the element stored at its offset |
| Kernel.HedgeKernel.GetPoint | Plugins/Hedge/Source/Hedge/Private/HedgeKernel.h:90 | reading a point at a valid handle gives the element stored at its offset |
| Kernel.HedgeKernel.NumEdges | Plugins/Hedge/Source/Hedge/Private/HedgeKernel.h:110 | the number of allocated edge slots |
| Kernel.HedgeKernel.NumVertices | Plugins/Hedge/Source/Hedge/Private/HedgeKernel.h:108 | the number of allocated vertex slots |
| Kernel.HedgeKernel.NumFaces | Plugins/Hedge/Source/Hedge/Private/HedgeKernel.h:109 | the number of allocated face slots |
| Kernel.HedgeKernel.NumPoints | Plugins/Hedge/Source/Hedge/Private/HedgeKernel.h:107 | the number of allocated point slots |
| Kernel.HedgeKernel.AddEdge | Plugins/Hedge/Source/Hedge/Private/HedgeKernel.h:97 | adds the edge at a slot it may allocate; the returned handle is valid, reads back the edge, and `NumEdges` rises by one |
| Kernel.HedgeKernel.AddVertex | Plugins/Hedge/Source/Hedge/Private/HedgeKernel.h:99 | adds the vertex; the handle is valid and reads it back, and `NumVertices` rises by one |
| Kernel.HedgeKernel.AddFace | Plugins/Hedge/Source/Hedge/Private/HedgeKernel.h:98 | adds the face; the handle is valid and reads it back, and `NumFaces` rises by one |
| Kernel.HedgeKernel.AddPoint | Plugins/Hedge/Source/Hedge/Private/HedgeKernel.h:100 | adds the point; the handle is valid and reads it back, and `NumPoints` rises by one |
| Kernel.HedgeKernel.NewEdge | Plugins/Hedge/Source/Hedge/Private/HedgeKernel.h:92 | adds a default edge and returns its handle and the element |
| Kernel.HedgeKernel.NewVertex | Plugins/Hedge/Source/Hedge/Private/HedgeKernel.h:94 | adds a default vertex and returns its handle and the element |
| Kernel.HedgeKernel.NewFace | Plugins/Hedge/Source/Hedge/Private/HedgeKernel.h:93 | adds a default face and returns its handle and the element |
| Kernel.HedgeKernel.NewPoint | Plugins/Hedge/Source/Hedge/Private/HedgeKernel.h:95 | adds a point at the position, listing no vertices |
| Kernel.HedgeKernel.SetRootEdge | Plugins/Hedge/Source/Hedge/Private/Tests/KernelOperationsTest.cpp:94 | a write of a face root edge through `Get` changes that field of that face only |
| Kernel.HedgeKernel.MakeEdgePair | Plugins/Hedge/Source/Hedge/Private/HedgeKernel.h:130-134 | the kernel is left as `Topology.MakeEdgePair` describes, and the first edge is returned |
| Kernel.HedgeKernel.ConnectEdges | Plugins/Hedge/Source/Hedge/Private/HedgeKernel.h:145-157 | the kernel is left as `Topology.ConnectEdges` describes, and the new vertex is returned |
| Kernel.HedgeKernel.LoopOf | Plugins/Hedge/Source/Hedge/Private/HedgeKernel.h:136-143 | the loop walk returns exactly the loop of the root edge |
| Kernel.HedgeKernel.StampLoop | Plugins/Hedge/Source/Hedge/Private/HedgeKernel.h:136-143 | the stamping loop leaves the edges as `StampFace` describes |
| Kernel.HedgeKernel.MakeFace | Plugins/Hedge/Source/Hedge/Private/HedgeKernel.h:136-143 | the kernel is left as `Topology.MakeFace` describes, and the new face is returned |
| Kernel.HedgeKernel.RemovePoint | Plugins/Hedge/Source/Hedge/Private/HedgeKernel.h:105 | the kernel is left as `Topology.RemovePoint` describes |
| Kernel.HedgeKernel.RemoveVertex | Plugins/Hedge/Source/Hedge/Private/HedgeKernel.h:104 | the kernel is left as `Topology.RemoveVertex` describes |
| Kernel.HedgeKernel.RemoveFace | Plugins/Hedge/Source/Hedge/Private/HedgeKernel.h:103 | the kernel is left as `Topology.RemoveFace` describes |
| Kernel.HedgeKernel.ClearBackPrev | Plugins/Hedge/Source/Hedge/Private/HedgeKernel.h:102 | the edges are left as `ClearPrevOf` describes |
| Kernel.HedgeKernel.ClearBackNext | Plugins/Hedge/Source/Hedge/Private/HedgeKernel.h:102 | the edges are left as `ClearNextOf` describes |
| Kernel.HedgeKernel.RepairFaceRoot | Plugins/Hedge/Source/Hedge/Private/HedgeKernel.h:102 | the faces are left as `RepairRoot` describes |
| Kernel.HedgeKernel.Detach | Plugins/Hedge/Source/Hedge/Private/HedgeKernel.h:102 | the kernel is left as `DetachEdge` describes, the origin vertex removed when the edge was its own |
| Kernel.HedgeKernel.RemoveEdge | Plugins/Hedge/Source/Hedge/Private/HedgeKernel.h:102 | the kernel is left as `Topology.RemoveEdge` describes |
| Kernel.HedgeKernel.Defrag | Plugins/Hedge/Source/Hedge/Private/HedgeKernel.h:112-128 | the kernel is left as `Topology.Defrag` describes: all four buffers are compacted first, then every link is rewritten |
| KernelTests.PointAppended | Plugins/Hedge/Source/Hedge/Private/HedgeKernel.h:36-46 | on a buffer without gaps, adding a point appends it at the current generation |
| KernelTests.FaceAppended | Plugins/Hedge/Source/Hedge/Private/HedgeKernel.h:36-46 | on a buffer without gaps, adding a face appends it at the current generation |
| KernelTests.EdgePairAppended | Plugins/Hedge/Source/Hedge/Private/HedgeKernel.h:130-134 | on a buffer without gaps, an edge pair is appended as two twins |
| KernelTests.AddAndRemoveElements | Plugins/Hedge/Source/Hedge/Private/Tests/KernelOperationsTest.cpp:20-63 | the add-and-remove test: offsets 0..3 and four points, point 1 at (1,0,0) with no vertices, three points and an invalid handle after a removal, reuse of offset 2, the handle valid again and reading position (2,2,2) |
| KernelTests.BuildFourPoints | Plugins/Hedge/Source/Hedge/Private/Tests/KernelOperationsTest.cpp:22-26 | four points added to a new kernel sit at offsets 0..3 |
| KernelTests.FourPoints | Plugins/Hedge/Source/Hedge/Private/Tests/KernelOperationsTest.cpp:22-36 | the buffer state after the four additions |
| KernelTests.CreateTriangle | Plugins/Hedge/Source/Hedge/Private/Tests/KernelOperationsTest.cpp:74-130 | the triangle test: the counts 3/6/3/1, each point listing its vertex, and each edge's face, prev, next and vertex as the test expects; also the face loop is the three edges |
| KernelTests.TriangleRooted | Plugins/Hedge/Source/Hedge/Private/Tests/KernelOperationsTest.cpp:94-127 | after rooting the face the kernel holds the expected counts, point lists and edge links |
| KernelTests.BuildTriangleParts | Plugins/Hedge/Source/Hedge/Private/Tests/KernelOperationsTest.cpp:76-88 | the points, face and three edge pairs are built at the expected offsets |
| KernelTests.TriangleParts | Plugins/Hedge/Source/Hedge/Private/Tests/KernelOperationsTest.cpp:76-88 | the buffer state after the triangle parts are built |
| KernelTests.TriangleConnected | Plugins/Hedge/Source/Hedge/Private/Tests/KernelOperationsTest.cpp:90-92 | the three `ConnectEdges` calls link the triangle, register the vertices with the points and change nothing else |
| KernelTests.DefragElements | Plugins/Hedge/Source/Hedge/Private/Tests/KernelOperationsTest.cpp:143-262 | the defrag test: gapped offsets, unchanged counts, every old handle stale, the renewed handles valid, position (0.5,0,0), and both rewritten links at generation 2 |
| KernelTests.BuildDefragScene | Plugins/Hedge/Source/Hedge/Private/Tests/KernelOperationsTest.cpp:145-204 | the gapped buffers with the triangle wired in, before `Defrag` |
| KernelTests.ConnectScene | Plugins/Hedge/Source/Hedge/Private/Tests/KernelOperationsTest.cpp:200-204 | rooting the face and connecting the three edges keeps the gaps and sets the links `Defrag` is checked on |
| KernelTests.BuildGappedBuffers | Plugins/Hedge/Source/Hedge/Private/Tests/KernelOperationsTest.cpp:145-198 | points at 0,2,4, the face at 2 and the edges at 0,6,8, with slots freed between them |
| KernelTests.BuildGappedPoints | Plugins/Hedge/Source/Hedge/Private/Tests/KernelOperationsTest.cpp:147-165 | five points added and two removed leave points at offsets 0, 2 and 4 |
| KernelTests.GappedPoints | Plugins/Hedge/Source/Hedge/Private/Tests/KernelOperationsTest.cpp:147-165 | the point buffer after five additions and two removals |
| KernelTests.AddGappedFaces | Plugins/Hedge/Source/Hedge/Private/Tests/KernelOperationsTest.cpp:167-179 | three faces added and two removed leave the face at offset 2 |
| KernelTests.GappedFaces | Plugins/Hedge/Source/Hedge/Private/Tests/KernelOperationsTest.cpp:167-179 | the face buffer after three additions and two removals |
| KernelTests.AddGappedEdges | Plugins/Hedge/Source/Hedge/Private/Tests/KernelOperationsTest.cpp:181-198 | five edge pairs made and two removed leave edges at offsets 0, 6 and 8 |
| KernelTests.GappedEdges | Plugins/Hedge/Source/Hedge/Private/Tests/KernelOperationsTest.cpp:181-198 | the edge buffer after five pairs and two removals |
| KernelTests.FiveEdgePairs | Plugins/Hedge/Source/Hedge/Private/Tests/KernelOperationsTest.cpp:183-189 | five edge pairs fill slots 0..9 as twins |
| KernelTests.TwoEdgePairsRemoved | Plugins/Hedge/Source/Hedge/Private/Tests/KernelOperationsTest.cpp:193-194 | removing the second and third pairs frees slots 2..5 |
| KernelTests.SecondPairRemoved | Plugins/Hedge/Source/Hedge/Private/Tests/KernelOperationsTest.cpp:193 | removing the second pair frees slots 2 and 3 |
| KernelTests.PairRemovalKeepsVertices | Plugins/Hedge/Source/Hedge/Private/Tests/KernelOperationsTest.cpp:193-194 | with no vertex in the kernel, removing an edge pair keeps the invariants and changes no vertex or point |
| KernelTests.SecondPairSlots | Plugins/Hedge/Source/Hedge/Private/Tests/KernelOperationsTest.cpp:193 | after the second pair goes, slots 0, 1 and 4..9 are live, 2 and 3 are free, and edge 1 keeps its null `prev` |
| KernelTests.ThirdPairRemoved | Plugins/Hedge/Source/Hedge/Private/Tests/KernelOperationsTest.cpp:194 | removing the third pair frees slots 4 and 5 |
| KernelTests.ThirdPairSlots | Plugins/Hedge/Source/Hedge/Private/Tests/KernelOperationsTest.cpp:194 | after the third pair goes too, slots 2..5 are free, the rest live, and edge 1 keeps its null `prev` |
| KernelTests.SceneConnected | Plugins/Hedge/Source/Hedge/Private/Tests/KernelOperationsTest.cpp:200-209 | the connected scene has 3 points, 6 edges, 1 face and 3 vertices |
| KernelTests.DefragStaleness | Plugins/Hedge/Source/Hedge/Private/Tests/KernelOperationsTest.cpp:211-225 | after `Defrag` the counts are unchanged and every handle held from before is invalid |
| KernelTests.GappedPointRank | Plugins/Hedge/Source/Hedge/Private/Tests/KernelOperationsTest.cpp:229-231 | the point at offset 4 is the third allocated point |
| KernelTests.DefragPointsOutcome | Plugins/Hedge/Source/Hedge/Private/Tests/KernelOperationsTest.cpp:229-240 | the handles 0, 1 and 2 with the ignored generation are valid after `Defrag`, and point 2 is at (0.5,0,0) |
| KernelTests.GappedEdgeRanks | Plugins/Hedge/Source/Hedge/Private/Tests/KernelOperationsTest.cpp:242-247 | edges 0, 1 and 6 are the first, second and third allocated edges |
| KernelTests.DefragEdge0Next | Plugins/Hedge/Source/Hedge/Private/Tests/KernelOperationsTest.cpp:246-249 | edge 0's next link is rewritten to offset 2 at generation 2 |
| KernelTests.DefragEdge1Prev | Plugins/Hedge/Source/Hedge/Private/Tests/KernelOperationsTest.cpp:250-253 | edge 1's prev link is rewritten to offset 0 at generation 2 |
| Proxies.PxTruthyIffKernelAndOffset | Plugins/Hedge/Source/Hedge/Public/HedgeProxies.h:27-30 | a proxy is truthy exactly when its kernel is not null and its offset is not 0 |
| Proxies.PxEqualIsIdentity | Plugins/Hedge/Source/Hedge/Public/HedgeProxies.h:32-35 | proxy `==` holds exactly when kernel and handle (offset and generation) are the same |
| Proxies.PxNotEqualAsWrittenMissesSameKernel | Plugins/Hedge/Source/Hedge/Public/HedgeProxies.h:37-40 | as written, two proxies on one kernel with different handles are neither `==` nor `!=` |
| Proxies.PxNotEqualIsNegation | Plugins/Hedge/Source/Hedge/Public/HedgeProxies.h:37-40 | the corrected `!=` is the negation of `==`; the as-written one implies it |
| Proxies.EdgeElement | Plugins/Hedge/Source/Hedge/Public/HedgeProxies.h:42-45 | `GetElement` on an edge proxy needs a kernel and a valid handle, and gives the edge stored at its offset |
| Proxies.FaceElement | Plugins/Hedge/Source/Hedge/Public/HedgeProxies.h:42-45 | `GetElement` on a face proxy gives the face at its valid handle |
| Proxies.VertexElement | Plugins/Hedge/Source/Hedge/Public/HedgeProxies.h:42-45 | `GetElement` on a vertex proxy gives the vertex at its valid handle |
| Proxies.PointElement | Plugins/Hedge/Source/Hedge/Public/HedgeProxies.h:42-45 | `GetElement` on a point proxy gives the point at its valid handle |
| Proxies.EdgeNavigationWrapsLinks | Plugins/Hedge/Source/Hedge/Private/HedgeProxies.cpp:7-35 | `Vertex`, `Face`, `Next`, `Prev` and `Adjacent` stay on the same kernel and wrap exactly the matching link of the edge |
| Proxies.AdjacentIsInvolution | Plugins/Hedge/Source/Hedge/Private/HedgeProxies.cpp:31-35 | in a kernel with consistent twins, `Adjacent` leads to another live edge, and `Adjacent` of that leads back to the same edge |
| Proxies.BoundaryIsSymmetric | Plugins/Hedge/Source/Hedge/Private/HedgeProxies.cpp:37-56 | the corrected boundary test holds for an edge exactly when it holds for its twin, and always for an edge without a live face |
| Proxies.BoundaryAsWrittenMisreadsFaceZero | Plugins/Hedge/Source/Hedge/Private/HedgeProxies.cpp:37-56 | an edge on the live face at offset 0, whose twin is on the live face at offset 1, is a boundary as written and not under the corrected test |
| Proxies.BoundaryTestsAgreeWhereTruthyMeansValid | Plugins/Hedge/Source/Hedge/Private/HedgeProxies.cpp:37-56 | the two boundary tests agree wherever a face handle is truthy exactly when it is valid |
| Proxies.EdgeIsBoundaryOfTwin | Plugins/Hedge/Source/Hedge/Private/HedgeProxies.cpp:37-56 | on a consistent kernel, an edge proxy is a boundary exactly when its `Adjacent` is, and it is one when its face is not valid |
| Proxies.EdgeGetVertices | Plugins/Hedge/Source/Hedge/Private/HedgeProxies.cpp:66-72 | `GetVertices` needs only the edge and its next edge to be valid, and returns, in the same kernel, the edge's vertex handle followed by its next edge's vertex handle |
| Proxies.EdgeGetPoints | Plugins/Hedge/Source/Hedge/Private/HedgeProxies.cpp:58-64 | `GetPoints` returns two point proxies |
| Proxies.GetPointsFollowsNext | Plugins/Hedge/Source/Hedge/Private/HedgeProxies.cpp:58-72 | `GetPoints` pairs the points of `GetVertices`, on the same kernel, and an edge's second point (and vertex) is its `Next` edge's first |
| Proxies.RootEdgeOfMadeFace | Plugins/Hedge/Source/Hedge/Private/HedgeProxies.cpp:74-78 | on a face made from a root edge, `RootEdge` wraps that edge, and when the edge is valid its `Face` leads back to the face |
| Proxies.VertexOfConnectedEdges | Plugins/Hedge/Source/Hedge/Private/HedgeProxies.cpp:80-90 | on the vertex `ConnectEdges` created, `Edge` and `Point` wrap B and the point, `Vertex` of that edge leads back, and a live point lists the vertex |
| Proxies.PointVerticesLeadBack | Plugins/Hedge/Source/Hedge/Private/HedgeProxies.cpp:104-108 | every vertex the set returned by `Vertices()` lists, in a consistent kernel, is live, and its `Point` leads back to the point |
| Proxies.MovePointProperties | Plugins/Hedge/Source/Hedge/Private/HedgeProxies.cpp:98-102 | moving a point sets its position and changes nothing else: its vertex set and metadata, every other element, the allocation and the counts stay |
| Proxies.MovePointPreservesConsistency | Plugins/Hedge/Source/Hedge/Private/HedgeProxies.cpp:98-102 | moving a point keeps the invariants |
| Proxies.PointSetPosition | Plugins/Hedge/Source/Hedge/Private/HedgeProxies.cpp:98-102 | `SetPosition` leaves the kernel as `MovePoint` describes, and a following `Position` returns the new value |

## Left out

- Handle widths: offsets and generations are unbounded naturals, not `uint32`. Wrap-around after 2^32 slots or 2^32 compactions is not modelled.
- Handles.ToString: prints the offset as an unsigned decimal. `%d` on a `uint32` offset of 2^31 or more would print a negative number, and the model does not reproduce that.
- Positions: `FVector`'s single-precision components are `real` in the model. The kernel only stores positions and hands them back.
- `TSparseArray`'s free-list order: the model lets `Add` pick any free slot. Where a test depends on the choice, the buffer has a single free slot.
- `Reserve` (`HedgeKernel.h:29`) and the capacity argument of `Reset` only set a capacity and have no observable effect. They are not modelled.
- `UObject`/`UCLASS` reflection, the module start-up and shut-down, logging, and the `UHedgeMesh` layer above the kernel are not part of this model.
- The stubs of `Private/HedgeKernel.cpp`: they return `nullptr` or an invalid handle, while the header's reference-returning declarations are what the tests use. The model follows the declarations.
- Triangulation: `MakeFace` leaves the triangle list empty. The header marks building it for faces of more than three sides as a to-do.
- `MakeFace` walks the root loop for at most as many steps as there are edge slots. A walk that long has already met every edge, so the bound cuts off no loop. A next chain that cycles without returning to the root edge is walked for exactly that many steps, so such a walk may list an edge more than once.
- Proxies.PointVertices: `Vertices()` returns a mutable reference to the point's vertex set. The model reads the set at the time of the call. Writes through that reference are not modelled; the kernel's own operations are the only writers.
- KernelTests.DefragElements: does not state the assertion at `KernelOperationsTest.cpp:252`, which expects edge 0's next link to equal `(1, 2)`.
  - Edge 0's next edge is the edge at old offset 6.
  - After order-keeping compaction, offset 6 holds the third surviving edge, so the link moves to offset 2.
  - The method proves `(2, 2)` instead.
  - The assertion at line 253 is stated, but it holds only by way of the default link. Edge 1's prev is never set by the test; its default `(0, 0)` designates the live edge 0, so `Defrag` rewrites it to `(0, 2)`.
- Topology.Consistent: does not require `next` and `prev` to be inverse links. `ConnectEdges` overwrites A's next without clearing the prev of A's old successor, and a never-set `(0, 0)` link designates the live edge 0, so that invariant would not hold after the operations as modelled. The lemmas `ConnectEdgesPreservesConsistency`, `DetachEdgeKeepsMutual`, `RemoveEdgeKeepsMutual` and `DefragPreservesConsistency` state the part that does hold: mutual pairs stay mutual.
- Topology.Consistent: does not require a vertex's edge to start at that vertex. A second `ConnectEdges` onto the same edge B points B's vertex link at the newer vertex, while the older vertex keeps B as its edge.
- Topology.Consistent: the vertex-to-point direction is stated only for truthy point handles. Removing a point nulls its vertices' links to `(0, 0)`, and that link designates the point at offset 0 whenever slot 0 is live (`NulledPointLinkDesignatesPointZero`).
- Topology.ConnectEdgesPreservesConsistency: by `Topology.Consistent`, it does not promise that next and prev are inverse links, only that the new pair is mutual and other mutual pairs are kept. It requires the point handle to be valid or falsy: on a stale truthy point handle the new vertex would sit on a point that does not list it.
- Topology.DefragPreservesConsistency: by `Topology.Consistent`, it does not promise that next and prev are inverse links, only that mutual pairs move together.
- Topology.RemovePointPreservesConsistency: by `Topology.Consistent`, the vertices the point listed are only known to have a falsy point handle, not to be on no point: `(0, 0)` designates the point at offset 0 when that slot is live.
- Topology.AddVertexPreservesConsistency: requires the vertex to carry a falsy point handle. `Add` stores any vertex, but a vertex on a truthy point that does not list it breaks the vertex-to-point direction; the kernel's own `ConnectEdges` registers the vertex with its point.
- Topology.RemoveEdgeRemovesTwin: the root is left invalid when no neighbour of the removed edge survives. The new root is the removed edge's next, else its prev, under the rule above. The model does not search further around the loop for another surviving edge. A face rooted at the removed edge is repaired only when it is that edge's own face; a face rooted there through a stale face link keeps its root.
- Kernel.HedgeKernel.AddEdge: keeps `Valid()` but not `Topology.Consistent`, because a raw half-edge never has a twin naming it back (`Topology.AddEdgeBreaksTwins`). The header offers the raw overload; only `MakeEdgePair` adds a consistent pair.
- Kernel.HedgeKernel.AddVertex: keeps `Valid()`; `Topology.Consistent` is proved to survive it only for a vertex with a falsy point handle (`Topology.AddVertexPreservesConsistency`).
- Kernel.HedgeKernel.AddPoint: keeps `Valid()`; `Topology.Consistent` is proved to survive it only for a point that lists no vertex (`Topology.AddPointPreservesConsistency`). A listed vertex whose point link does not designate the new point breaks the point-to-vertex direction.
- Topology.AddPointPreservesConsistency: requires the point to list no vertex, for the reason given under `Kernel.HedgeKernel.AddPoint`.
- Buffers.Store: the validity generation is a per-buffer counter that the source does not have. `THedgeElementBuffer` holds only its `TSparseArray` (`HedgeKernel.h:21-25`), so the source leaves open where a handle's generation is checked against. The model checks it against the buffer's counter.
- Elements.DefaultMeta: `FMeshElement::Generation` (`HedgeElements.h:34`) is carried in `meta.generation`, unchanged. No validity check reads it, and `Defrag` does not restamp it. After a compaction every element still carries generation 1, while its buffer and every re-stamped link are at 2 (`Topology.DefragMovesEdge` and its siblings prove `meta` is kept).
- Elements.DefaultPoint: puts the default position at the origin. `FPoint::Position` has no initialiser (`HedgeElements.h:113`), so the default position is whatever `FVector`'s default constructor leaves.
- Proxies.EdgeGetVertices, Proxies.EdgeGetPoints: the capacity-two fixed allocator of the returned arrays is modelled as a sequence of length two.

## Findings

| source | as written | input that shows it | evidently intended | confidence | as-written member | corrected member |
|---|---|---|---|---|---|---|
| Plugins/Hedge/Source/Hedge/Public/HedgeTypes.h:107-110 | `operator>` returns `Lhs < Rhs` | handles at offsets 1 and 2: `1 > 2` holds and `2 > 1` does not | the converse of `<` | high, not executed | Handles.GreaterAsWrittenIsReversed | Handles.GreaterIsConverseOfLess |
| Plugins/Hedge/Source/Hedge/Public/HedgeProxies.h:37-40 | `operator!=` requires both the index and the kernel to differ | two proxies on one kernel with different handles: neither `==` nor `!=` holds | the negation of `==` | high, not executed | Proxies.PxNotEqualAsWrittenMissesSameKernel | Proxies.PxNotEqualIsNegation |
| Plugins/Hedge/Source/Hedge/Private/HedgeKernel.h:36-46 | `Add` returns `ElementIndexType(Offset)`, with the ignored generation | add x at 0 and y at 1, remove 0, compact: the handle `(0, 0)` is still valid and now names y; the Defrag test expects every earlier handle to be invalid (`KernelOperationsTest.cpp:217-225`) | a handle stamped with the buffer's generation | medium, not executed | Buffers.AsWrittenAddHandleOutlivesCompaction | Buffers.StampedHandleGoesStale |
| Plugins/Hedge/Source/Hedge/Private/HedgeProxies.cpp:37-56 | `IsBoundary` tests the face handles for truthiness | an edge on the live face at offset 0 whose twin is on the live face at offset 1 reads as a boundary | a boundary is an edge without a valid face on both sides | medium, not executed | Proxies.BoundaryAsWrittenMisreadsFaceZero | Proxies.BoundaryIsSymmetric |
