# Vx runtime and compiler core, verified in Dafny

Vx compiles programs that place tensors on CPUs, GPUs and other machines. This project models
the parts of Vx whose mistakes would be silent, and proves what they promise.

**View staging** (`Strided`, `Abi`, `Packing`, `Blocks`, `Copying`, `Overlap`, `Plan`, `Unpack`,
`Staging`, `Execute`, `Redirect`, `Region`, `Published`, `Call`). A region can run on copies of its
tensors. The planner groups strided views that overlap, gives each group one span, packs a view
that is alone in its span, copies, redirects the descriptors, and afterwards maps descriptors
back. Memory is one flat array of bytes, a descriptor is a record in a store, and a kernel is any
program that reaches memory only through elements of its views; afterwards the region may rewrite
its descriptors. `Call.RunCall` goes from views that are not planned yet to restored descriptors:
memory is what running in place leaves, and each descriptor comes back under an exact condition.

**Remote dispatch** (`Handles`, `Wire`, `Cursor`, `Transport`, `Worker`, `Agent`, `Retarget`,
`Payload`, `Serving`, `Protocol`, `Lockstep`, `Carry`, `Client`, `Dispatching`, `Device`,
`Offload`). A host stages views on a worker, sends a dispatch, reads results back and frees what it
staged. The handle table, the byte codec, framing under short reads and writes, every turn of the
worker's loop and every call of the client are modelled, and the calls go through the bytes of the
streams. A device plugin is an arbitrary effect on device memory that keeps the buffers it was given
and fills the slots it was sent. `Offload.RunRemotely` ends with the host's memory as if the plugin's
kernel had run there in place.

**Transfer routing** (`Routing`, `Dijkstra`, `Router`): the two-pass lexicographic Dijkstra and the
matrix of route costs.

**Device pool** (`Pool`): an allocator whose driver calls run outside its lock, as a machine of
threads that interleave between locked sections.

**Compiler algebra** (`ApiDiff`, `Canon`, `Lifetimes`): version bumps as an ordered quasi-metric,
canonical renaming of type streams, and packed lifetime subtyping. `Options` is shared.

Integers are unbounded; where the source's width matters it is written out (saturating sums of
routes, the wrapping products and element count of a view, the wrapping argument count of a message,
the casts of `topo=`). I/O, allocators, driver calls and scheduling are parameters: a schedule of call
outcomes for the transport, a list of allocator answers for a worker, an effect for a kernel, an
interleaving for the pool.

Findings, each with a lemma:

- The restore matches a descriptor by address alone and adds the first view's offset in elements.
  A descriptor comes back exactly when the first view that starts at its byte has offset 0 or the
  same element size (`Region.GivenBackIff`, `Published.PublishedShared`). An f32 at byte 8 can come
  back at byte 4 (`Region.ComesBackElsewhere`).
- The restore's branch for a view's own descriptor looks at the offset and not at the strides. For a
  part of the view, dimension by dimension, it is right exactly when the published strides are the
  dense ones (`Published.OwnBranchIff`). With the dimensions in another order it is right exactly when
  each of more than one element goes where the view has the same stride
  (`Published.OwnBranchRearranged`), so a transpose of any shape is lost (`Published.TransposeIsLost`).
  Past the view's sizes the dense strides are needed but not enough (`Published.OwnBranchOnly`,
  `Published.DensePastRow`). `Call.PublicationComesBack` joins the branches.
- Two views of one descriptor with an offset and elements of two sizes start at two bytes, and the
  one descriptor cannot be redirected to both (`Region.OnePlaceNeeded`).
- The dense copy test multiplies signed strides and sizes. It takes an overlapping view exactly when
  it takes one with a product of 2^63 or more, and it refuses none that it should take
  (`Packing.WrongIff`); `Packing.WrapAccepts` is such a view. A plan follows the rule exactly when no
  product of a view it packs is that large (`Plan.PlanIff`).
- The sums of a route saturate. Where the least price is below 2^64 - 1, the cost that the router
  answers with is right exactly when the least weight is at most 2^32 - 1 (`Router.RouteCostIff`). Two
  edges of weights 2^32 - 1 and 1 get the cost 2^32 - 1 (`Router.SaturatedAnswer`).
- The comment on the binary search of the handle table (runtime/vx_remote_region.h:235) needs worker
  ids appended in order. A smaller id hides the last region when that is live
  (`Handles.OutOfOrderHides`); for a table whose last region is live, `Handles.AgreesIffInOrder` is
  the exact condition. A worker process uses one id.
- What a call staged on the worker is released exactly when the call is served or nothing was staged.
  A refused argument, a message that is too long and a dispatch that the worker declines leave it live
  (`Dispatching.RemoteDispatch`, `Dispatching.StagedStay`) until the connection ends. A served one
  never fails in its fetches.
- A result is written over the slot's own descriptor, and the next dispatch follows the address it
  finds there. So a filled slot cannot be passed on (`Dispatching.NotPassedOn`), which
  runtime/vx_agent.h:268-275 promises; written one step further in, it could be
  (`Dispatching.InnerWouldPassOn`).
- The rewrite of `topo=` pads with zeros on the left. The payload then names the worker's id exactly
  when the id is not negative or its text fills the field (`Retarget.RewriteRight`); -1 in the field
  of 501 reads as 0 (`Retarget.NegativeIsLost`).
- The canonical form of a type stream keeps which positions are one instantiation and forgets which
  arguments it has (`Canon.CanonicalIff`, `Canon.ArgumentsForgotten`), where
  src/intern_mode.rs:66-73 claims the same argument lists.
- An unset lifetime region is a wildcard, so chains of subtypes are sound exactly through words
  with no unset slot (`Lifetimes.ChainsIffSet`). A real depth of 4095 is read as unset
  (`Lifetimes.OnlySentinelIsUnset`).
- Identical lifetime words are accepted before any slot is looked at. That accepts what the slot rule
  refuses exactly at words with a set slot of variance 3 or more (`Lifetimes.ShortcutIff`,
  `Lifetimes.ShortcutDiffers`). It also makes the provenance bits matter there
  (`Lifetimes.ProvenanceIgnored`, `Lifetimes.ProvenanceMatters`).

## Model

| member | source | states |
|---|---|---|
| Abi.ViewSpan | include/vx_hardware_runtime.h:224-260 | Each verdict exactly when it applies: unknown element, first negative dimension, 2^64 elements, 2^64 bytes, else the byte span |
| Abi.SpanMeaning | include/vx_hardware_runtime.h:224-260 | The span is (greatest linear index over all index tuples + 1) times the element size, reached by a tuple, and 0 exactly when some size is 0 |
| Abi.SpanUnique | include/vx_hardware_runtime.h:224-260 | A view has one verdict |
| Packing.NestedInjective | runtime/vx_view_copy.h:80-82 | Two index tuples of a nested layout never reach the same element |
| Packing.NestedCount | runtime/vx_view_copy.h:83-118 | A nested layout has at most as many elements as its span, so their count does not wrap |
| Packing.SortDims | runtime/vx_view_copy.h:104-110 | The in-place insertion sort leaves the same dimensions, ordered by stride and equal strides in their first order |
| Packing.ChainedIffPairwise | runtime/vx_view_copy.h:111-115 | In that order, the neighbour tests with wrapped products decide the same tests for every two dimensions |
| Packing.CollectDims | runtime/vx_view_copy.h:91-101 | Lists the dimensions of more than one element in order, and the count modulo 2^64; refuses exactly a stride that does not step forward |
| Packing.Packable | runtime/vx_view_copy.h:83-118 | For every span below 2^64 bytes it accepts exactly the views whose wrapped tests pass at a rank the ABI holds and whose wrapped dense size is below the span; the dense size of a nested view is exact |
| Packing.TestIffNested | runtime/vx_view_copy.h:103-115 | A view that passes the wrapped tests is nested exactly when no product reaches 2^63; a nested view always passes |
| Packing.WrongIff | runtime/vx_view_copy.h:80-118 | The source takes a view it should not exactly when it takes one with a product of 2^63 or more, and refuses none it should take |
| Packing.FittingAgrees | runtime/vx_view_copy.h:80-118 | Where no product reaches 2^63, the source accepts exactly the nested layouts whose elements take fewer bytes than their span |
| Packing.ShouldPackIff | runtime/vx_view_copy.h:80-118 | The rule asks for a dense copy exactly of a nested view that leaves some element of its span unreached |
| Packing.ShortFits | runtime/vx_view_copy.h:111-115 | No product of the test overflows in a view that reaches fewer than 2^63 places |
| Packing.WrapAccepts | runtime/vx_view_copy.h:111-115 | A view that passes the wrapped test and reaches an element twice |
| Blocks.Advance | runtime/vx_view_copy.h:287-296 | One odometer step goes from the tuple of one row-major position to the next, and ends after the last |
| Blocks.ListBlocks | runtime/vx_view_copy.h:250-298 | The blocks tile the dense copy in order, and each byte of a block stands for the byte of the view at its row-major position |
| Copying.HostByteOfTuple | runtime/vx_view_copy.h:242-336 | The element at a tuple stands at its dense-stride position in the dense copy |
| Copying.HostByteInjective | runtime/vx_view_copy.h:80-118 | No two bytes of a dense copy stand for one byte of the view |
| Copying.Gather | runtime/vx_view_copy.h:300-321 | Every byte of the dense copy is the view's byte it stands for, and nothing else changes |
| Copying.Scatter | runtime/vx_view_copy.h:309-326 | Every byte of the view is its byte of the dense copy, and nothing else changes |
| Copying.BackAfterOut | runtime/vx_view_copy.h:319-326 | Scatter after gather leaves the view's memory as it was |
| Copying.OutAfterBack | runtime/vx_view_copy.h:319-326 | Gather after scatter gives the dense buffer back |
| Overlap.GroupCovers | runtime/vx_view_copy.h:158-180 | The hull of a group of chained overlaps has no gap: every byte is a byte of one of its views |
| Overlap.LinkRoot | runtime/vx_view_copy.h:71-78 | Following links ends, because they only go to smaller indices, and linking roots joins two groups |
| Overlap.OverlapsIff | runtime/vx_view_copy.h:161-170 | Two views overlap exactly when they reach a byte in common |
| Overlap.SameRootIffConnected | runtime/vx_view_copy.h:158-180 | Two views have the same root exactly when a chain of byte overlaps links them |
| Plan.MeasureAll | runtime/vx_view_copy.h:129-157 | Every view gets its span and address, or the plan stops at the first view that has none or is not in the address space |
| Plan.RootOf | runtime/vx_view_copy.h:73-78 | The loop gives the root of a view's group |
| Plan.JoinAll | runtime/vx_view_copy.h:161-180 | After the pairwise loop the links join exactly the overlapping views |
| Plan.SpanAll | runtime/vx_view_copy.h:185-215 | One span for each root, tight around its views, each view inside its span |
| Plan.HullsDisjoint | runtime/vx_view_copy.h:182-220 | Spans of different groups have no byte in common |
| Plan.PackAll | runtime/vx_view_copy.h:222-238 | A span gets a dense copy exactly when it has one view and the source takes it for one |
| Plan.PlanViews | runtime/vx_view_copy.h:126-240 | Same span exactly for chained views, every view inside its hull at `at`, hulls apart, dense copies exactly where the source's test says, and where the rule says if no product overflows; otherwise the view that stops the plan |
| Plan.PlanIff | runtime/vx_view_copy.h:80-240 | The plan has dense copies exactly where the rule says if and only if no product of a view it packs reaches 2^63 |
| Unpack.DenseStride | runtime/vx_view_copy.h:329-336 | The loop gives the dense stride of a dimension |
| Unpack.UnpackDesc | runtime/vx_view_copy.h:372-420 | Accepts, at any rank up to 8, exactly the descriptors that are parts of the view: a first tuple, and for each dimension of more than one element a dimension of the view and a step, with nothing past the end of a dimension; the result has that tuple's offset and those steps in the view's own strides, and every tuple names the element it named in the dense copy |
| Unpack.AcceptsIff | runtime/vx_view_copy.h:379-420 | The search for the first dimension that divides a stride accepts a descriptor exactly when it is such a part, however the part is given |
| Unpack.BoxAccepted | runtime/vx_view_copy.h:366-420 | Every box of a dense copy, with its dense strides, is accepted |
| Staging.StoreMirror | runtime/cuda_dispatch.cpp:1476-1550 | A store in place and the same store in a copy keep the two memories mirrored |
| Staging.RunMirrors | runtime/cuda_dispatch.cpp:1476-1550 | For every kernel and every number of steps, running on faithful copies sees the same bytes and keeps memory mirrored |
| Execute.PlannedIsFaithful | runtime/vx_view_copy.h:126-240 | The planned copies stand for each byte once and overlap neither each other nor any view |
| Redirect.PointAt | runtime/vx_view_copy.h:342-365 | Every descriptor with bytes points at its copy with the right strides, once, and what it held is saved; others keep |
| Redirect.PointedRedirects | runtime/vx_view_copy.h:342-365 | Every element of every view is reached, through the redirected descriptors, at its byte of the copies |
| Redirect.Restore | runtime/vx_view_copy.h:431-471 | Every listed descriptor in a copy is mapped by the first view there, others keep; it fails exactly when one cannot be unpacked |
| Region.OwnGivenBack | runtime/vx_view_copy.h:442-468 | A descriptor the region leaves alone comes back with the pointers and the offset of the first non-empty view that starts at its byte |
| Region.GivenBackIff | runtime/vx_view_copy.h:442-453 | It then reaches what it reached before exactly when that view has offset 0 or the same element size |
| Region.GivenBackWhole | runtime/vx_view_copy.h:431-471 | It comes back as it was, pointers included, when no view of another descriptor starts there before it |
| Region.ComesBackElsewhere | runtime/vx_view_copy.h:442-453 | An f32 at byte 8 comes back at byte 4 because an f64 view with offset 1 starts there |
| Region.OnePlaceNeeded | runtime/vx_view_copy.h:342-365 | Only for views of which each descriptor has one start can the redirect be right |
| Region.RunOnCopies | runtime/cuda_dispatch.cpp:1487-1537 | Copy out, redirect, run and copy back: the kernel sees, and memory outside the copies holds, what running in place gives |
| Region.RunRegion | runtime/cuda_dispatch.cpp:1487-1555 | The same with the restore, which succeeds; every view's descriptor is the one `OwnGivenBack` names |
| Published.PublishedShared | runtime/vx_view_copy.h:442-453 | A descriptor published into a shared span reaches the original byte of each element exactly when the first view there has offset 0 or its element size |
| Published.PublishedPacked | runtime/vx_view_copy.h:446-468 | A descriptor published into a dense copy and unpacked reaches the original byte of each element |
| Published.OwnBranchIff | runtime/vx_view_copy.h:454-459 | For published sizes within the view's, dimension by dimension: the own-descriptor branch keeps the elements exactly when the published strides are dense in every dimension of more than one element |
| Published.OwnBranchOnly | runtime/vx_view_copy.h:454-459 | For any published sizes: an exact branch has in each dimension of more than one element the stride that leads to the view's own, which is the dense one where the view has more than one element too |
| Published.OwnBranchRearranged | runtime/vx_view_copy.h:454-459 | For a part of the view with its dimensions in any order: exact exactly when each dimension of more than one element goes where the view has the same stride |
| Published.TransposeIsLost | runtime/vx_view_copy.h:454-459 | A transpose, of any shape, published in place of its view comes back with other elements |
| Published.DensePastRow | runtime/vx_view_copy.h:454-459 | Dense strides past the end of a row are not exact |
| Call.PublicationComesBack | runtime/vx_view_copy.h:431-471 | A descriptor in which the region publishes elements of a view reaches, after the restore, what the one published in place reaches exactly when the branch that maps it is exact |
| Call.OwnPartComesBack | runtime/vx_view_copy.h:454-459 | What a call publishes in the view's own descriptor with offset 0, in any order of dimensions, comes back exactly under the condition of `OwnBranchRearranged` |
| Call.RunCall | runtime/cuda_dispatch.cpp:1476-1555 | From unplanned views to restored descriptors: a call the plan refuses changes nothing; otherwise the kernel sees, and memory outside the copies holds, what running in place gives, it fails exactly when a published descriptor cannot be mapped, and every descriptor is published exactly as `PublicationComesBack` says, given back, or left alone |
| Dijkstra.PoppedIsLeast | src/arch.rs:1518-1537 | A popped entry that is not stale has sums no greater than those of every walk to its space that costs less than 2^64 - 1 |
| Dijkstra.RelaxHop | src/arch.rs:1538-1562 | Relaxing one hop, with the saturating sums, keeps every invariant of the search in every graph |
| Dijkstra.Rebuild | src/arch.rs:1519-1529 | Following predecessors back and reversing gives the tree path, and ends |
| Dijkstra.Search | src/arch.rs:1473-1566 | In every graph: none exactly when no walk of admissible edges exists; otherwise the stops of a walk over hops of least weight and its weight up to 2^32 - 1, and no walk that costs less than 2^64 - 1 has lesser sums (attoseconds, weight) |
| Routing.LeastExists | src/arch.rs:1465-1472 | A space that can be reached has a walk of least (attoseconds, weight) |
| Routing.AnswerCost | src/arch.rs:1538-1562 | Where that walk costs less than 2^64 - 1, an answer has its price, and as its cost the weight of that walk up to 2^32 - 1 |
| Routing.AnswerIsBest | src/arch.rs:1473-1566 | An answer is then a best route when that weight is below 2^32 - 1, and never when it is above |
| Routing.DirectEdgeWeight | src/arch.rs:1638-1645 | The least declared weight of a direct edge, none exactly when there is no edge |
| Router.CostAlongPath | src/arch.rs:1465-1472 | The cost of a best route is the sum of the least direct weights along its own path, which runs from source to target |
| Router.BestCostUnique | src/arch.rs:1465-1472 | All best routes between two spaces cost the same |
| Router.TransferPath | src/arch.rs:1453-1463 | A route exactly when the target is reachable, in every graph; the answer of the priced pass if that reaches the target, else of the pass over all edges; it runs from source to target |
| Router.RouteCostIff | src/arch.rs:1465-1472 | Where the least price is below 2^64 - 1, the cost of a pair is its least weight up to 2^32 - 1, and so right exactly when that is at most 2^32 - 1 |
| Router.SaturatedAnswer | src/arch.rs:1541-1550 | Of two declared edges of weights 2^32 - 1 and 1, no cost of 32 bits is that of a best route, and every answer costs 2^32 - 1 |
| Router.ShortIsPriced | src/arch.rs:170-178 | With prices from descriptors, a route costs 2^64 - 1 or more only over more than 18 hops |
| Router.DeclaredHops | src/arch.rs:1010-1022 | After applying descriptors the hops are the earlier ones and the declared ones |
| Router.LeastPrice | src/arch.rs:1030-1042 | The price of a pair is the least that any descriptor or the earlier graph offers |
| Router.PriceIsTime | src/arch.rs:163-178 | A link of a rate per second costs the time of a byte in whole attoseconds, a shared one 0, and a derived, fixed or per-cycle edge has no price |
| Router.FasterIsCheaper | src/arch.rs:170-178 | A faster link is never dearer |
| Router.PriceIsFastest | src/arch.rs:1035-1038 | The price of a pair is the time over its fastest declared link, in whole attoseconds |
| Router.FastestRoute | src/arch.rs:1453-1472 | Where links lead to the target, the chosen route is as fast as any other, up to one attosecond per byte for each of its hops |
| Router.HopsWeighOne | src/arch.rs:155-160 | Without fixed weights the weight of a route is its number of hops |
| Router.FixedWeighs | src/arch.rs:155-160 | A fixed weight is the weight of its hop |
| Router.OrderOfRoutes | src/arch.rs:1034-1036 | The order of descriptors changes neither reachability, nor which routes are best, nor which are answers |
| Router.TransferCostGraph.AddTransferEdge | src/arch.rs:1010-1015 | The hops are the earlier ones and the new one; prices and the soundness of every matrix entry are kept |
| Router.TransferCostGraph.ApplyDescriptorEdges | src/arch.rs:1019-1043 | The graph is the fold of the declarations, with the prices of `PriceIsFastest` and the weights of `HopsWeighOne` and `FixedWeighs`; every matrix entry stays sound |
| Router.TransferCostGraph.PrecomputeCosts | src/arch.rs:1224-1263 | The matrix has exactly the reachable pairs of known spaces, each with its route cost |
| Router.TransferCostGraph.TransferCost | src/arch.rs:1569-1573 | The route cost of a known reachable pair, none otherwise |
| Router.TransferCostGraph.CanTransfer | src/arch.rs:1648-1651 | True exactly for known reachable pairs |
| Handles.Composed | runtime/vx_remote_region.h:96-118 | Composing and taking apart an address are inverse, and it is a handle |
| Handles.HandleParts | runtime/vx_remote_region.h:114-118 | Every handle is composed of a worker id from 1 to 255 and a 47-bit offset |
| Handles.HandleIsNotAPointer | runtime/vx_remote_region.h:47-58 | No canonical address is a handle |
| Handles.InvStep | runtime/vx_remote_region.h:184-302 | Every operation in order of worker ids keeps regions ascending, each gap before the next base |
| Handles.ResolveIsLinear | runtime/vx_remote_region.h:220-268 | Binary search gives the one live region that contains the address, or nothing when none does |
| Handles.ResolveInEveryRun | runtime/vx_remote_region.h:184-302 | The same in every table that a run of operations reaches |
| Handles.OneWorkerIsOrdered | runtime/vx_worker_main.cpp:221-233 | A process with one id always allocates in order |
| Handles.GoneForGood | runtime/vx_remote_region.h:270-302 | A handle below its worker's next offset and in no live region never resolves again, whatever follows |
| Handles.StaleForGood | runtime/vx_remote_region.h:270-302 | An address that resolved and was freed, or dropped with the table, never resolves again |
| Handles.GapNeverResolves | runtime/vx_remote_region.h:166-183 | An address past a region by less than its size, or by less than 1 MiB, never resolves |
| Handles.LowNeverResolves | runtime/vx_remote_region.h:153-164 | No address in the first 1 MiB of a worker ever resolves |
| Handles.NewResolves | runtime/vx_remote_region.h:184-218 | Every byte of a new region resolves to it and to its own offset |
| Handles.OutOfOrderHides | runtime/vx_remote_region.h:235-246 | Appending a smaller worker id makes the last live region unresolvable |
| Handles.AgreesIffInOrder | runtime/vx_remote_region.h:235-246 | For a table whose last region is live: after an allocation the search agrees with the linear rule on all addresses exactly when the new id is not smaller |
| Handles.RegionTable.TableAlloc | runtime/vx_remote_region.h:184-218 | The table in place becomes the one with the new region, or stays; 0 exactly without room |
| Handles.RegionTable.TableResolve | runtime/vx_remote_region.h:227-268 | The loop computes the resolution for any table, sorted or not |
| Handles.RegionTable.TableFree | runtime/vx_remote_region.h:273-284 | The first live region with that base dies, and only it |
| Handles.RegionTable.TableFreeAll | runtime/vx_remote_region.h:291-302 | The callback gets the pointer of each live region in order; the table is empty and offsets stay |
| Wire.U32Back | runtime/vx_wire.h:110-127 | Four bytes decode to a number exactly when they are its encoding |
| Wire.TagParts | include/vx_hardware_runtime.h:74-82 | The kind, element, rank and slot bit that a tag is made of are read back |
| Wire.LittleEndian | runtime/vx_wire.h:110-167 | A 64-bit number travels with its least significant byte first, a negative one modulo 2^64 |
| Wire.LittleEndian32 | runtime/vx_wire.h:110-127 | So does a 32-bit number |
| Wire.ListLayout | runtime/vx_wire.h:258-266 | Number i of a list is its i-th eight bytes |
| Wire.I64sBack | runtime/vx_wire.h:129-167 | A list of signed 64-bit numbers is read back exactly where its encoding stands |
| Wire.ArgBack | runtime/vx_wire.h:237-334 | A well-formed argument is read at a place exactly when its encoding stands there, and exactly its bytes are consumed |
| Wire.ArgRead | runtime/vx_wire.h:276-334 | What is read is well formed, and the bytes read are its encoding |
| Wire.DispatchBack | runtime/vx_wire.h:394-436 | Decoding an encoded DISPATCH gives payload and arguments back and consumes exactly its bytes |
| Wire.DispatchRead | runtime/vx_wire.h:415-436 | Only encodings are accepted |
| Wire.CutIsRefused | runtime/vx_wire.h:415-436 | Every strict prefix of an encoded DISPATCH is refused |
| Wire.TransferBack | runtime/vx_wire.h:343-388 | A TRANSFER is read exactly where its encoding stands |
| Wire.ReplyBack | runtime/vx_wire.h:459-498 | Decoding encoded results gives status and results back |
| Wire.FetchBack | runtime/vx_wire.h:510-520 | A FETCH is read back where its encoding stands |
| Wire.HeaderBack | runtime/vx_wire.h:178-201 | A header is read back |
| Wire.HeaderLayout | runtime/vx_wire.h:178-184 | A header is magic number, version, type and length, at bytes 0, 4, 8 and 12 |
| Wire.TensorLayout | runtime/vx_wire.h:237-267 | A tensor is tag, handle, rank, sizes and strides, in that order |
| Wire.DispatchLayout | runtime/vx_wire.h:394-404 | A DISPATCH is the payload after its length, and the arguments after their number |
| Wire.TransferLayout | runtime/vx_wire.h:343-353 | A TRANSFER is element type, rank, sizes, and the bytes after their number |
| Wire.FetchLayout | runtime/vx_wire.h:510-514 | A FETCH is a handle and a number of bytes |
| Wire.ReplyLayout | runtime/vx_wire.h:459-471 | A reply is the status, and the results after their number |
| Wire.ResultLayout | runtime/vx_wire.h:459-471 | A result is handle, rank and sizes |
| Cursor.WroteBoth | runtime/vx_wire.h:89-96 | Two writes are one: all of it, or a sticky flag and a prefix |
| Cursor.Writer.Put | runtime/vx_wire.h:89-96 | Writes all or sets the flag; bytes past the cursor are untouched, and a set flag stays |
| Cursor.Writer.PutArg | runtime/vx_wire.h:237-267 | Writes the argument's encoding, overflowing exactly when it does not fit |
| Cursor.Writer.PutDispatch | runtime/vx_wire.h:394-404 | Writes the message's encoding, overflowing exactly when it does not fit |
| Cursor.Writer.PutTransfer | runtime/vx_wire.h:343-356 | Writes the encoding of a TRANSFER, overflowing exactly when it does not fit |
| Cursor.Writer.PutFetch | runtime/vx_wire.h:510-514 | Writes the encoding of a FETCH, overflowing exactly when it does not fit |
| Cursor.Writer.PutReply | runtime/vx_wire.h:459-471 | Writes the encoding of a reply, overflowing exactly when it does not fit |
| Cursor.Writer.PutHeader | runtime/vx_wire.h:178-184 | Writes the header's encoding |
| Cursor.Reader.Get | runtime/vx_wire.h:100-108 | Reads bytes that are there, else sets a flag that stays |
| Cursor.Reader.ArgGet | runtime/vx_wire.h:276-334 | The cursor loop computes the argument decoder |
| Cursor.Reader.DispatchGet | runtime/vx_wire.h:415-436 | The cursor loop computes the message decoder |
| Cursor.Reader.TransferGet | runtime/vx_wire.h:363-388 | The cursor computes the decoder of a TRANSFER |
| Cursor.Reader.FetchGet | runtime/vx_wire.h:516-519 | The cursor computes the decoder of a FETCH |
| Cursor.Reader.ReplyHeadGet | runtime/vx_wire.h:473-482 | The cursor computes the decoder of the head of a reply |
| Cursor.Reader.ResultGet | runtime/vx_wire.h:484-498 | The cursor computes the decoder of a result |
| Transport.WriteAll | runtime/vx_transport.h:73-90 | All bytes go out under every schedule without a failing call; otherwise a strict prefix |
| Transport.ReadAll | runtime/vx_transport.h:96-113 | Exactly the bytes asked for, EOF only before the first, an error partway |
| Transport.Drain | runtime/vx_transport.h:117-128 | Skips exactly the length, in chunks of 1024 |
| Transport.Send | runtime/vx_transport.h:131-151 | The frame's bytes go out, or a strict prefix with an error |
| Transport.Recv | runtime/vx_transport.h:160-193 | The outcome depends only on the stream and not on the schedule; position after a message or a skipped body |
| Transport.FrameArrives | runtime/vx_transport.h:153-193 | A frame in the stream is delivered, or reported with its length when it exceeds capacity |
| Transport.FramesInOrder | runtime/vx_transport.h:131-193 | The frames of a stream arrive in order, each where the one before ended, then end of stream |
| Transport.Exchange | runtime/vx_transport.h:73-193 | For all benign schedules on both sides what is received is what was sent, in order |
| Worker.StoredSound | runtime/vx_worker_main.cpp:221-233 | A transfer keeps every live region backed by a buffer of its own |
| Worker.StoredLive | runtime/vx_worker_main.cpp:221-233 | A transfer adds exactly its new handle to the live regions |
| Worker.ReleasedLive | runtime/vx_worker_main.cpp:525-536 | A FREE of a live handle removes exactly that region and its buffer |
| Worker.ReleasedKeeps | runtime/vx_worker_main.cpp:525-536 | A FREE keeps what is resident at every other handle |
| Worker.ReleasedOrphans | runtime/vx_worker_main.cpp:525-536 | No FREE leaves a device buffer without a region |
| Worker.FetchedWhole | runtime/vx_worker_main.cpp:502-524 | A FETCH of a resident buffer gives its bytes |
| Worker.FetchedThere | runtime/vx_worker_main.cpp:502-519 | A FETCH from anywhere in a region gives the bytes there, if they are all in it and fit in a reply, else nothing |
| Worker.FetchedNowhere | runtime/vx_worker_main.cpp:502-513 | A FETCH of an address in no live region gives nothing |
| Worker.DisconnectedClean | runtime/vx_worker_main.cpp:621-629 | The end of a connection frees each live region's buffer exactly once and leaves none |
| Agent.ViewFits | runtime/vx_agent.h:90-101 | True exactly when the view's span fits in what is left of the region |
| Agent.RebuildArg | runtime/vx_agent.h:108-193 | Succeeds exactly for scalars, empty slots, and views that resolve and fit, given storage; a tensor is rebuilt at the place its handle names, with its own sizes and strides |
| Agent.RebuiltOnce | runtime/vx_agent.h:108-193 | There is one way to rebuild an argument, and it is an empty slot exactly for a slot without a handle |
| Agent.RebuildArgs | runtime/vx_agent.h:198-209 | Storage for 16 arguments never runs out, so a list is refused exactly when one argument is |
| Agent.InsideBuffer | runtime/vx_agent.h:84-193 | No element of a rebuilt tensor, by its rebuilt sizes and strides, reaches a byte outside its buffer |
| Serving.RanRight | runtime/vx_worker_main.cpp:370-404 | After a run the worker is sound, its live regions are the earlier ones and one new handle for each result |
| Serving.RanOrphans | runtime/vx_worker_main.cpp:370-404 | When every output is named no device buffer is lost |
| Serving.ResultsHold | runtime/vx_worker_main.cpp:370-404 | The handle of result j holds the bytes that the plugin published in slot j, in their shape |
| Serving.HandedRight | runtime/vx_worker_main.cpp:309-357 | What the plugin is handed has the payload retargeted to the worker's device, with every other key as it was, and each argument with its tag, rebuilt as it must be |
| Serving.AgreeingPlugins | runtime/vx_worker_main.cpp:309-366 | A dispatch depends only on what the plugin does with such a call |
| Serving.WorkerProcess.ServeTransfer | runtime/vx_worker_main.cpp:204-233 | The bytes are resident at a new handle, or nothing changes and the handle is 0 |
| Serving.WorkerProcess.ServeFetch | runtime/vx_worker_main.cpp:502-524 | The bytes of the region, or none for a bad handle or length |
| Serving.WorkerProcess.ServeFree | runtime/vx_worker_main.cpp:525-536 | Frees the region whose base the handle is, and nothing else |
| Serving.WorkerProcess.ServeDispatch | runtime/vx_worker_main.cpp:241-415 | Nothing changes unless there are at most 16 arguments, every one can be rebuilt, the topology can be rewritten and the plugin runs; then output j is named for the j-th slot sent empty, and the reply fails exactly when one cannot be named. The plugin is called with the payload for this device and the rebuilt arguments: a plugin that does the same with every such call gives the same state and reply |
| Serving.WorkerProcess.NameResults | runtime/vx_worker_main.cpp:370-404 | Outputs get handles slot by slot; the first that is missing or finds no room ends the dispatch |
| Serving.WorkerProcess.Disconnect | runtime/vx_worker_main.cpp:621-629 | Releases every live region |
| Protocol.Answer | runtime/vx_worker_main.cpp:466-538 | Every message of a known type, decodable or not, and every one that is too large gets one reply of its own type, with the state that request leaves |
| Protocol.ServeTurn | runtime/vx_worker_main.cpp:428-541 | One turn over the streams, for every receive outcome: exactly one request is consumed and one reply sent, or a strict prefix of it when a write fails; an unknown type or a broken stream sends nothing and changes nothing |
| Protocol.Link.RoundTrip | runtime/vx_remote_client.h:157-207 | A call is one frame each way: unless the connection is lost, what it gets is the reply to its own request, cut to its capacity, and both streams end at a frame boundary |
| Lockstep.NoStaleReply | runtime/vx_worker_main.cpp:428-541 | In every run over the bytes of the two streams, call k gets the reply to its own request, answered in the state the calls before it left; between calls nothing is left in the streams |
| Lockstep.NeverStuck | runtime/vx_worker_main.cpp:428-541 | In every run a waiting call can go on: its reply has come, or the worker can take its request |
| Carry.HoldingReads | runtime/vx_remote_client.h:357-412 | An argument that names staged bytes resolves, fits and reads the host's element values |
| Carry.DenseSpan | runtime/vx_remote_client.h:405-409 | A packed view's span with dense strides is exactly the bytes sent |
| Carry.ViewHolding | runtime/vx_remote_client.h:357-412 | What a planned view is sent as, shared or packed, has the host's element values inside the bytes sent |
| Carry.EmptyHolding | runtime/vx_remote_client.h:221-244 | An empty view is sent as one element that fits and is never read |
| Client.RemoteTransfer | runtime/vx_remote_client.h:157-186 | Over the connection: a new handle for exactly these bytes, or 0, and then the worker is unchanged unless the connection is lost; with room everywhere and no failing call the handle is not 0 |
| Client.StageEmpty | runtime/vx_remote_client.h:224-244 | Adds one staged element with no bytes to bring back |
| Client.EncodeArgs | runtime/vx_remote_client.h:278-412 | On success every argument is sent as its kind says and every staged buffer holds its contents at a handle of its own; a refusal names a bad argument, too many, or a refused transfer; it aborts only for a view the plan cannot take; on every path exactly the listed buffers are new on the worker |
| Client.SentWellFormed | runtime/vx_remote_client.h:278-412 | Every encoded argument is one a decoder gives back unchanged |
| Client.Accepted | runtime/vx_remote_client.h:278-412 | The worker rebuilds every encoded argument, and what it rebuilds is what must arrive |
| Client.Arrives | runtime/vx_remote_client.h:278-412 | An empty slot arrives empty, a scalar with its bytes and zeros after them, a local tensor with the host's values, and a tensor on the worker at its address, which is aligned plus offset times the element size, with its sizes and strides |
| Dispatching.FetchStaged | runtime/vx_remote_client.h:430-439 | Over the connection, the worker's bytes go to the places they came from and no other byte changes; it fails exactly when the worker has fewer |
| Dispatching.FetchEvery | runtime/vx_remote_client.h:533-537 | The same for all staged buffers |
| Dispatching.FreeStaged | runtime/vx_remote_client.h:541-543 | Each staged buffer is freed once, and nothing else |
| Dispatching.RemoteFetch | runtime/vx_remote_client.h:189-207 | The bytes the worker holds for the handle, whole or not at all, and its state is kept |
| Dispatching.RemoteFree | runtime/vx_remote_client.h:576-590 | Acknowledged exactly when the connection holds; the region is then released |
| Dispatching.FindStaged | runtime/vx_remote_client.h:416-426 | The first staged buffer that covers a handle |
| Dispatching.OneCovers | runtime/vx_remote_client.h:416-426 | At most one does |
| Dispatching.ApplyResult | runtime/vx_agent.h:276-286 | The descriptor of a result holds its handle, its sizes and dense strides |
| Dispatching.SlotIsDense | runtime/vx_agent.h:276-286 | It reaches the elements of the result at their row-major positions from the handle |
| Dispatching.AppliedAt | runtime/vx_remote_client.h:486-499 | Result j lands in the descriptor of the j-th slot that was sent empty |
| Dispatching.AppliedElsewhere | runtime/vx_remote_client.h:486-499 | A descriptor that is no such slot keeps what it held |
| Dispatching.ReadReply | runtime/vx_remote_client.h:475-499 | Decodes a reply and applies its results; a failure or an empty reply changes no descriptor |
| Dispatching.SendDispatch | runtime/vx_remote_client.h:455-499 | The worker ends in the state of the dispatch, and the host has its results, exactly when it completes; one that does not fit is not sent, and one too large for the worker changes nothing |
| Dispatching.NotPassedOn | runtime/vx_agent.h:268-275 | After a completed dispatch the host finds no descriptor at the address in a filled slot |
| Dispatching.InnerWouldPassOn | runtime/vx_remote_client.h:306-340 | A result in the descriptor a slot leads to would be sent on under its handle |
| Dispatching.StagedFetchable | runtime/vx_remote_client.h:430-439 | Every staged buffer can be read back after any kernel |
| Dispatching.RemoteDispatch | runtime/vx_remote_client.h:443-545 | After a success the worker's live regions are the earlier ones and one for each slot sent empty, result j is in the j-th such slot and its handle holds what the plugin published there, no device buffer is lost, and what is asked for is brought back; otherwise host memory and slots are unchanged, and every end says why and in what state the worker is; what was staged is released exactly when the dispatch is served or nothing was staged |
| Dispatching.LaunchArrives | runtime/vx_remote_client.h:443-474 | Every call of the plugin for this dispatch has the arguments of the host's call, as `Client.Arrives` says, under their tags |
| Dispatching.ArgumentBack | runtime/vx_remote_client.h:506-537 | After a served dispatch, every local argument that was asked for reads on the host, element by element, what the plugin left in the tensor it was handed |
| Dispatching.StagedStay | runtime/vx_worker_main.cpp:241-415 | No dispatch, run or declined, releases a staged buffer |
| Device.DeviceMirrors | runtime/vx_remote_client.h:443-545 | For every kernel and every number of steps, a run on device buffers that hold the images of host memory sees the same bytes and keeps the images |
| Offload.OffloadRight | runtime/vx_remote_client.h:443-545 | Staged, run by the plugin on the arguments it is handed and brought back, memory equals the run in place on the call's own descriptors |
| Offload.RunRemotely | runtime/vx_remote_client.h:443-575 | The same for the whole call over the connection; a call that is not served leaves memory as it was |
| Payload.PayloadField | include/vx_hardware_runtime.h:416-459 | The loop finds the first entry that starts with the key and stops at the empty entry |
| Payload.PayloadTextEnd | include/vx_hardware_runtime.h:345-374 | The loop finds the end of the text |
| Payload.PayloadSection | include/vx_hardware_runtime.h:518-548 | No section, a bad one, or the place of the image |
| Payload.LookupBack | include/vx_hardware_runtime.h:376-459 | Looking a key up in an encoded payload gives its first value, or none |
| Payload.ImageIsNotRead | include/vx_hardware_runtime.h:404-408 | Where a lookup ends does not depend on the image |
| Payload.SectionBack | include/vx_hardware_runtime.h:495-548 | The section of an encoded payload is its image exactly, and there is none without one |
| Retarget.RewriteTopo | runtime/vx_worker_main.cpp:326-343 | The field in place becomes the zero-padded text of the id, whatever its sign; refused exactly when the text is wider than the field, and a payload without the field stays |
| Retarget.RewriteRight | runtime/vx_worker_main.cpp:309-343 | The rewritten payload decodes to the id exactly when it is not negative or its text fills the field; every lookup ends where it did, and every other key keeps its value; without the field nothing changes |
| Retarget.NegativeIsLost | runtime/vx_worker_main.cpp:326-343 | -1 in the field of 501 reads as 0 |
| Pool.TotalWithout | runtime/vx_device_pool.h:69-134 | The bytes pooled do not depend on the order of the sizes |
| Pool.DevicePool.TryTake | runtime/vx_device_pool.h:72-87 | Takes the last buffer of that size exactly when there is one, and keeps the accounting |
| Pool.DevicePool.TryKeep | runtime/vx_device_pool.h:106-117 | Keeps the buffer exactly when capacity allows, and keeps the accounting |
| Pool.DevicePool.TakeAll | runtime/vx_device_pool.h:125-130 | Takes the whole cache |
| Pool.PlacesStep | runtime/vx_device_pool.h:69-134 | Every step of every thread keeps each driver buffer in exactly one place, with its size |
| Pool.RunInv | runtime/vx_device_pool.h:69-134 | In every interleaving the pooled bytes are the sum over buckets and within capacity, each buffer is in one place, and the live count is right |
| Pool.NoSharingNoDoubleFree | runtime/vx_device_pool.h:69-134 | An acquire returns a buffer nobody holds; what goes back to the driver is out and held by nobody |
| Pool.QuietDriver | runtime/vx_device_pool.h:122-134 | When threads are idle and the cache is empty the driver has out exactly what clients hold |
| ApiDiff.CompareFunctions | src/api_diff.rs:178-217 | A major change exactly when an old function is gone, changed, or newly unsafe; a minor one exactly when one is new or no longer unsafe |
| ApiDiff.CompareStructs | src/api_diff.rs:219-279 | A major change exactly when an old struct is not there as it was |
| ApiDiff.CompareVariants | src/api_diff.rs:291-312 | A change exactly when the variants differ in any way, order included |
| ApiDiff.CompareEnums | src/api_diff.rs:281-317 | A major change exactly when an old enum is not there as it was |
| ApiDiff.Diff | src/api_diff.rs:60-106 | The bump is major exactly when something breaks, else minor exactly when something is added |
| ApiDiff.PatchIsEqual | src/api_diff.rs:60-106 | A patch exactly when all compared parts are equal |
| ApiDiff.BelowMajorIff | src/api_diff.rs:178-317 | Below major exactly when every old item survives with its shape, provenance, fields and variants, not newly unsafe |
| ApiDiff.BreaksNothingIff | src/api_diff.rs:178-317 | A release is below major exactly when every call, in an unsafe block or not, every struct literal and every match that compiles against the old interface compiles against the new one |
| ApiDiff.AllowsNothingIff | src/api_diff.rs:60-106 | And a patch exactly when the same code compiles against both |
| ApiDiff.Chain | src/api_diff.rs:60-106 | The bump from a to c is at most the larger of a to b and b to c |
| ApiDiff.Releases | src/api_diff.rs:60-106 | Over any number of releases the whole step needs no more than the largest single one |
| Canon.CanonicaliseStream | src/intern_mode.rs:75-112 | The loop numbers instantiations by first appearance |
| Canon.RankIsKey | src/intern_mode.rs:85-106 | Two positions get one rank exactly when they have one key |
| Canon.RankCounts | src/intern_mode.rs:85-106 | A rank is the number of different keys before the first of its own |
| Canon.CanonicalIff | src/intern_mode.rs:66-112 | Equal canonical forms exactly when the streams agree outside word 2 and have the same generic positions with the same equalities, whatever the arguments |
| Canon.ArgumentsForgotten | src/intern_mode.rs:66-112 | One id that stands for any two argument lists has one canonical form |
| Canon.ModesAgree | src/intern_mode.rs:66-112 | Deferred and content interning of one program have one canonical form exactly when the digest tells the argument lists of that program apart |
| Lifetimes.SlotTest | src/borrow.rs:156-165 | The branch-free test of a slot is the slot rule |
| Lifetimes.OrderedMeans | src/borrow.rs:100-113 | Covariant: the source lives wherever the target does; contravariant: the other way round; invariant: both |
| Lifetimes.FastPath | src/borrow.rs:172-180 | The branch-free loop accepts exactly the words whose slots all pass |
| Lifetimes.EarlyExit | src/borrow.rs:205-235 | So does the loop that leaves early: the two agree on all pairs of words |
| Lifetimes.VerifyBounds | src/borrow.rs:114-136 | Equal words, or words whose slots all pass |
| Lifetimes.ProvenanceIgnored | src/borrow.rs:144-151 | The slot rule does not read the provenance bits of slot 0; the whole check tells two such pairs apart exactly when one of them is identical and the slots refuse it |
| Lifetimes.Reflexive | src/borrow.rs:104-180 | The slot rule accepts a word against itself exactly when every slot has a variance of 0 to 2 or is unset |
| Lifetimes.ShortcutIff | src/borrow.rs:114-136 | The test for identical words accepts what the slot rule refuses exactly at words with a set slot of variance 3 or more |
| Lifetimes.ShortcutDiffers | src/borrow.rs:114-136 | Such a word |
| Lifetimes.ProvenanceMatters | src/borrow.rs:114-151 | 0x3000 is accepted against itself and refused against the same word with other provenance bits |
| Lifetimes.Antisymmetric | src/borrow.rs:104-180 | Two set words each below the other agree in all the check reads |
| Lifetimes.ChainsIffSet | src/borrow.rs:160-165 | Chains of subtypes through any word are sound exactly when it has no unset slot |
| Lifetimes.ClampOrder | src/borrow.rs:81-99 | Clamping keeps the order of real depths and merges only those at or above the maximum |
| Lifetimes.OnlySentinelIsUnset | src/borrow.rs:81-99 | Only the sentinel depth becomes unset |

## Left out

- Unpack.UnpackDesc: computes on unbounded integers; a published descriptor whose offset or strides overflow 64 bits is undefined in the source.
- Redirect.PointAt: takes views of which each descriptor has one start; `Region.OnePlaceNeeded` shows that no result is right for others.
- Dijkstra.Search: where the least price of a target is 2^64 - 1 or more, which `Router.ShortIsPriced` puts past 18 hops, an answer is stated as a walk with its own weight and not compared with other walks.
- Router.TransferCostGraph.ApplyDescriptorEdges: does not model the rate, declared-cost and derived-edge tables, which only reporting and the roofline read.
- Router.TransferCostGraph.PrecomputeCosts: takes the spaces in any order, where the source sorts them by name; the result does not depend on it.
- Cursor.Reader.DispatchGet: includes the caller's loop over the arguments, which the source keeps in the serve loop.
- Client.EncodeArgs: the dense copy of a packed view is its bytes, and the host allocation behind it always succeeds; local views lie in host memory of less than 2^63 bytes; the connection does not fail.
- Dispatching.RemoteDispatch: which buffers to read back is a parameter, where the source reads it from the payload; the connection does not fail, which `Protocol.Link.RoundTrip` does not ask for.
- Serving.WorkerProcess.ServeDispatch: the GEMM plan decode, the kernel and timing are the plugin parameter; the bytes of an output are part of it; the list of results has no limit, where the source declares an array of 8 (runtime/vx_worker_main.cpp:484) for up to 16 slots.
- Protocol.Link.RoundTrip: once a send or a receive fails the connection counts as lost, and later calls on it get no reply.
- Offload.RunRemotely: takes calls whose tensors are all in host memory, read back whole; results under handles and buffers already on the worker are those of `Dispatching.RemoteDispatch`.
- Call.RunCall: takes calls in which no product overflows in a view that the plan packs, which `Plan.PlanIff` shows to be needed; the allocator gives blocks apart from each other and from every view; the region publishes after its last store, as a function of what it has seen.
- ApiDiff.Diff: gives the bump of each change without its text, and in any order.
- Pool.PlacesStep: a client releases a buffer it holds with the size it has, which is a precondition of the pool's callers; hit and miss counters are not modelled.
- Canon.CanonicalIff: needs every generic index to resolve; a type id is its words with word 2 classified, and the flag bits of word 3 are part of that class.
- The generation stamps of the handle table, which nothing reads.
- `vx_agent_collect_results`, which the worker does not call, and `vx_memref_write_desc`, whose loop is that of `vx_agent_apply_result`.
- Pricing of derived edges from memory bandwidths (src/arch.rs:1056-1080).
- The slow path of lifetime subtyping, an equality of two lists.
- Socket setup, manifests, environment variables, logging, timing and traffic counters.
- CUDA, cuBLAS, NCCL, libffi and the floating-point GEMM: foreign calls behind the kernel and device parameters.
- Mutexes: each locked section of the pool is one step.
- The formatter, diagnostics, the bytecode table and configuration: outside the staging, dispatch, routing, pool and type parts modelled here.
