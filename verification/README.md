# A verified model of GenTen's distribution, factor exchange and CP kernels

GenTen computes canonical polyadic (CP) decompositions of sparse and dense tensors, on one process or
on a Cartesian grid of MPI processes. This project models four connected parts of it in Dafny and
proves what they promise, over exact reals and for any number of processes and components. Dense tensors and
the serial kernels may have any number of modes; a distributed sparse tensor at most six, which is what the record
that carries a nonzero between processes has room for, and what the sparse results state as their exact condition.

* **Distribution of a tensor.** `UniformBlocking`, `Layout`, `ProcessGrid` and `Redistribution` cut the
  modes into blocks, find owners, slice the data on rank 0, and move it with an exclusive scan and
  one-sided puts that land in any order. `Records` is the fixed-size record of a nonzero on its way.
  `SparseDistribution` and `DenseDistribution` show where every entry ends up; `RowOwnership` splits factor
  rows over layers and ranks.
* **Factor rows between ranks.** `KtensorUpdate` and `AllGatherReduceUpdate` give import and export their
  plain meaning. `TwoSidedUpdate` (all-to-all, with the row lists of `RowLists`) and `OneSidedUpdate` (MPI
  windows, a state machine over whole runs with fences as in section 11.5.1 of MPI 3.1) are fast forms that
  refine it; `OneSidedTermination` bounds its runs and `OneSidedMaps` builds its row maps. `Mttkrp`,
  `DistributedMttkrp`, `DistributedRun` and `OneSidedRun` put everything together: a distributed MTTKRP returns
  the rows of the serial one, with either update.
* **CP-ALS and the Gaussian CP model.** `Sums` and `KtensorAlgebra` treat a Ktensor as the full tensor it
  stands for. On top of them `FactorMatrix`, `CpModel`, `LeastSquares`, `AlsRuns` and `CpAls` show that the cheap
  formulas (Gram matrices kept up to date, Hadamard products, the saved last MTTKRP) are the real norms,
  inner products, gradients and residuals, and that a whole ALS run never gets worse. `RowSplit`,
  `DistributedAls` and `DistributedAlsRun` show that the whole loop on a grid is a run of the serial one.
* **Blocked and concurrent kernels.** `FacMatrixKernels` (blocked Gram matrix, in-place permutation, symmetric
  sum), `ColumnMax` (lock-free maximum), `BlockEnumeration`, `Moments`, `MomentBlocks`, `Permutations` and
  `Cokurtosis` (fourth moments from unique blocks), `KhatriRaoSplit` (work split over teams).

`Sequences`, `Arithmetic`, `Vectors` and `Collectives` hold what several parts share. `PlainForms`, and lemmas whose
names end in `Plain`, write the shorthands of the other contracts out as sums and products of single entries.

## Conventions

* Numbers are exact: `real` for floating point, unbounded integers for indices. Norms are non-negative reals
  with a given square; DBL_MIN is taken as zero.
* A sparse tensor is the list of its nonzeros, a dense one the list of all its entries or a flat array.
  `KtensorAlgebra.Residual` is defined over every entry of the full tensor and is what all cheap formulas are
  compared with.
* Ranks that run the same program are modelled by loops over ranks, collectives by what they deliver, and
  unordered one-sided accesses by nondeterminism. Rank 0's value after an exclusive scan is the zero that its
  buffer holds.
* The grid is in row-major rank order; sub-communicator n of a layer holds the ranks with that coordinate,
  in rank order (GenTen/src/Genten_Pmap.cpp:169-192). MTTKRP means the reference loop of the performance test.
* The linear solver, the square root and the clock are parameters; the solver's contract is that a returned
  matrix X satisfies X * upsilon = right-hand side.

Where the code and its documentation differ, the model follows the code. `value` takes <X,M> from the overlap,
whose weights are the model's when the overlap aliases it and one otherwise; `value_and_gradient` multiplies an
MTTKRP with the overlap's weights by the model's. `CpModel` carries both weight vectors, states what each method
returns, and proves exactly when that is the objective (`CpModel.OverlapIsExact`, `CpModel.ShortcutIsExact`).
The partial tile of the fourth moments is scaled differently from the others and leaves its row count behind;
`Moments.TileSizeIsRight` says exactly when the result is right all the same, and `MomentBlocks.ComputeBlocks` what
the blocks are in every case. The check that rejects tensors of more than twelve modes lets seven to twelve through,
which overrun the record; `SparseDistribution.SevenModesOverrun` is such a tensor.

## Model

| member | source | states |
|---|---|---|
| UniformBlocking.SingleDimUniformBlocking | GenTen/src/Genten_DistTensorContext.cpp:96-125 | the push loop ends, also with more parts than items, and cut point p is p*q+min(p,r) with q, r the quotient and remainder |
| UniformBlocking.StartClosedForm | GenTen/src/Genten_DistTensorContext.cpp:98-111 | the running start of part p is p*q+min(p,r) with q, r the quotient and remainder |
| UniformBlocking.BalancedIsUniform | GenTen/src/Genten_DistTensorContext.cpp:96-125 | any balanced blocking with larger parts first is this one |
| UniformBlocking.BlockInThatDim | GenTen/src/Genten_DistTensorContext.cpp:290-306 | the linear search fails exactly beyond the range, and otherwise returns the part that contains the element |
| UniformBlocking.FindProcForRow | GenTen/src/Genten_DistKtensorUpdate.cpp:404-413 | counting offsets returns the part that contains the row |
| UniformBlocking.PartUnique | GenTen/src/Genten_DistTensorContext.cpp:290-306 | only one part contains an element and it is not empty, so all lookups agree |
| UniformBlocking.TeamSplit | GenTen/joint_moments/Genten_HigherMoments.cpp:155-181 | the branch-by-branch team split is the same balanced partition |
| UniformBlocking.KrpColumns | GenTen/joint_moments/compute_krp.hpp:82-99 | the column split of the Khatri-Rao kernel is the same balanced partition |
| Layout.Ind2SubLeft | GenTen/src/Genten_Tensor.hpp:103-117 | peeling modes from the last gives the coordinate whose column-major index it was |
| Layout.Ind2SubRight | GenTen/src/Genten_Tensor.hpp:213-228 | peeling modes from the first gives the coordinate whose row-major index it was |
| Layout.CoordAtSpec | GenTen/src/Genten_Tensor.hpp:103-228 | in both layouts the coordinate of an index is in bounds and has that index |
| Layout.IndexIsPlain | GenTen/src/Genten_Tensor.hpp:103-228 | the two layouts written out mode by mode: a further mode counts all entries before it, or the modes before it count its entries |
| Layout.IndexInjective | GenTen/src/Genten_Tensor.hpp:103-228 | in both layouts different coordinates have different indices |
| Layout.BoxOrder | GenTen/src/Genten_DistTensorContext.cpp:1219-1241 | inside a block, global linear order is the block's own linear order, in both layouts |
| Layout.BoxPositions | GenTen/src/Genten_DistTensorContext.cpp:1219-1241 | the positions of a block in the global array are, in order, the global indices of its local positions |
| ProcessGrid.Grid.RankInGridThatOwns | GenTen/src/Genten_DistTensorContext.cpp:308-322 | succeeds exactly when every subscript is below its mode's size, and returns the rank at whose grid position every subscript is between two cut points |
| ProcessGrid.Grid.OwnerSpec | GenTen/src/Genten_DistTensorContext.cpp:308-322 | the owner is the one rank whose block contains the coordinate |
| ProcessGrid.Grid.SubCommSpec | GenTen/src/Genten_Pmap.cpp:180-192 | a sub-communicator holds exactly the ranks with that grid coordinate, in rank order |
| Records.RoomForSix | GenTen/src/Genten_TensorIO.hpp:55-58 | packing and unpacking is the identity on all nonzeros of a tensor if and only if it has at most six modes |
| Records.PackAll | GenTen/src/Genten_DistTensorContext.cpp:177-184 | writing the nonzeros into records overruns exactly when there are more than six modes and a nonzero, and otherwise loses nothing |
| Redistribution.DistributeTensorToVectors | GenTen/src/Genten_DistTensorContext.cpp:225-287 | rank 0's slices are the uniform cuts, concatenate to the input, and the counts check never fails |
| Redistribution.DistributeTensorToVectorsSparse | GenTen/src/Genten_DistTensorContext.cpp:160-223 | fails exactly above twelve modes, overruns exactly for seven to twelve modes with nonzeros; otherwise the slices' records stand for the input, cut uniformly |
| Redistribution.BucketSparse | GenTen/src/Genten_DistTensorContext.cpp:334-338 | bucket t is the slice filtered by owner t; fails exactly when a nonzero is outside the tensor |
| Redistribution.BucketDense | GenTen/src/Genten_DistTensorContext.cpp:437-452 | the same for values whose coordinates come from their global position |
| Redistribution.ExScanIsStart | GenTen/src/Genten_DistTensorContext.cpp:345-348 | the exclusive scan puts source s's segment where the sources before it end |
| Redistribution.PutEpoch.PlaceOf | GenTen/src/Genten_DistTensorContext.cpp:403-414 | every put lies inside its target's window |
| Redistribution.PutEpoch.PlacesDisjoint | GenTen/src/Genten_DistTensorContext.cpp:403-414 | two different puts never touch the same cell |
| Redistribution.PutEpoch.Deliver | GenTen/src/Genten_DistTensorContext.cpp:404-413 | one put of any order writes its segment and keeps all that landed before |
| Redistribution.PutEpoch.RunPuts | GenTen/src/Genten_DistTensorContext.cpp:403-414 | in every order all puts are delivered |
| Redistribution.PutEpoch.AllLanded | GenTen/src/Genten_DistTensorContext.cpp:403-418 | after all puts a window is the concatenation of its segments in source order, whatever the order of the puts |
| Redistribution.WindowIsFiltered | GenTen/src/Genten_DistTensorContext.cpp:334-418 | that window is the global sequence filtered by owner |
| Redistribution.Exchange | GenTen/src/Genten_DistTensorContext.cpp:340-424 | from buckets to windows: every rank receives the input filtered by owner, in input order |
| SparseDistribution.DistributeSparse | GenTen/src/Genten_DistTensorContext.cpp:160-424 | succeeds exactly when every subscript is below its mode's size and there are at most six modes, or at most twelve and no nonzero; each rank then holds, in input order, its nonzeros, whose subscripts lie between the cut points of its grid position, and together the ranks hold all of them |
| SparseDistribution.SevenModesOverrun | GenTen/src/Genten_DistTensorContext.cpp:170-184 | a tensor of seven modes with one nonzero inside it that no record can carry |
| SparseDistribution.OwnedEntriesInBlock | GenTen/src/Genten_DistTensorContext.cpp:334-338 | every nonzero of a rank lies in the rank's block |
| SparseDistribution.RedistributionConserves | GenTen/src/Genten_DistTensorContext.cpp:326-424 | the multiset of all coordinates and values is unchanged |
| SparseDistribution.LocalTensor | GenTen/src/Genten_DistTensorContext.cpp:983-996 | subscripts are those of the record less the block's lower bound, inside the local dimensions; values are kept |
| SparseDistribution.ImportToRoot | GenTen/src/Genten_DistTensorContext.hpp:278-361 | with at most six modes rank 0 gathers the pieces, shifted back, in rank order; with more, a piece that is not empty overruns its record |
| SparseDistribution.RoundTrip | GenTen/src/Genten_DistTensorContext.hpp:278-361 | distributing, localising and gathering returns the original multiset of nonzeros, exactly when the tensor can be distributed |
| DenseDistribution.FilteredIsLocalBlock | GenTen/src/Genten_DistTensorContext.cpp:426-538 | the global array filtered by owner is the block in its own linear order |
| DenseDistribution.LocalBlockIsPlain | GenTen/src/Genten_DistTensorContext.cpp:426-538 | written out: the entry at any coordinate of a rank's block is in its window, at the linear index of the coordinate's position in the block |
| DenseDistribution.DistributeDense | GenTen/src/Genten_DistTensorContext.cpp:426-538 | without sending indices: window position k of a rank holds the global entry whose block-local linear index is k, for any grid, either layout and any order of puts |
| RowOwnership.LocalSize | GenTen/src/Genten_DistTensorContext.cpp:1130-1138 | quotient and remainder give the rank's share of the layer |
| RowOwnership.KtensorLocalRows | GenTen/src/Genten_DistTensorContext.cpp:1130-1153 | size and offset of a rank are its share of its layer's balanced partition |
| RowOwnership.RowsArePlain | GenTen/src/Genten_DistTensorContext.cpp:1130-1153 | written out for the p-th rank of a layer: quotient, remainder and cut point give its number of rows and its first row |
| RowOwnership.RowHasOwner | GenTen/src/Genten_DistTensorContext.cpp:1123-1154 | every row of every mode has an owner, also with empty blocks and empty ranks |
| RowOwnership.RowOwnerUnique | GenTen/src/Genten_DistTensorContext.cpp:1123-1154 | no row has two owners |
| RowOwnership.ExportFromRoot | GenTen/src/Genten_DistTensorContext.hpp:379-415 | every rank receives exactly its own rows |
| RowOwnership.ImportToRoot | GenTen/src/Genten_DistTensorContext.hpp:457-505 | gathering at each rank's own offset reassembles the matrix the pieces were cut from |
| RowOwnership.ImportToAll | GenTen/src/Genten_DistTensorContext.hpp:511-559 | every rank ends up with the matrix the pieces were cut from |
| RowOwnership.RoundTrip | GenTen/src/Genten_DistTensorContext.hpp:379-559 | export followed by import to the root, or to all ranks, is the identity on the root, or on every rank |
| KtensorUpdate.OffsetTable | GenTen/src/Genten_DistKtensorUpdate.hpp:369-376 | the running sum of the gathered sizes is where each rank's rows begin in the layer |
| AllGatherReduceUpdate.KtensorAllGatherReduceUpdate.constructor | GenTen/src/Genten_DistKtensorUpdate.hpp:344-388 | sizes and offsets describe how the layer's rows are spread |
| AllGatherReduceUpdate.KtensorAllGatherReduceUpdate.DoImport | GenTen/src/Genten_DistKtensorUpdate.hpp:445-463 | every rank ends up with all rows of the layer, each at its global place |
| AllGatherReduceUpdate.KtensorAllGatherReduceUpdate.DoExport | GenTen/src/Genten_DistKtensorUpdate.hpp:492-514 | every rank ends up with its rows summed over all overlaps |
| AllGatherReduceUpdate.Reduce | GenTen/src/Genten_DistKtensorUpdate.hpp:499-509 | the reduction of a row range is the sum over the ranks |
| KtensorUpdate.ReducedIsPlain | GenTen/src/Genten_DistKtensorUpdate.hpp:499-509 | written out: every component of a received row is the sum of the ranks' components |
| RowLists.ListRowsHost | GenTen/src/Genten_DistKtensorUpdate.cpp:843-931 | sorted or not, each list names once each exactly the needed rows of its owner, in ascending order when they are sorted |
| RowLists.BuildRowMap | GenTen/src/Genten_DistKtensorUpdate.cpp:988-1003 | in any order of the threads the shared map has exactly the needed rows with their owners, and the counts are the numbers of rows per owner |
| RowLists.FillRowRecvs | GenTen/src/Genten_DistKtensorUpdate.cpp:1050-1062 | in any order of fetch-and-adds and writes the slots fill every owner's counted range of the flat buffer exactly, without collision |
| RowLists.ListRowsDevice | GenTen/src/Genten_DistKtensorUpdate.cpp:954-1066 | map, scan and slots together give each owner the list of its needed rows |
| TwoSidedUpdate.AllToAllV | GenTen/src/Genten_Pmap.hpp:293-304 | each rank receives what every rank packed for it, in rank order |
| TwoSidedUpdate.KtensorTwoSidedUpdate.UpdateTensor | GenTen/src/Genten_DistKtensorUpdate.cpp:1071-1180 | receive lists and send lists agree for all pairs of ranks, whichever path listed the rows |
| TwoSidedUpdate.KtensorTwoSidedUpdate.DoImportSparse | GenTen/src/Genten_DistKtensorUpdate.cpp:1336-1388 | needed rows equal the all-gathered ones and every other row is untouched |
| TwoSidedUpdate.KtensorTwoSidedUpdate.DoExportSparse | GenTen/src/Genten_DistKtensorUpdate.cpp:1431-1484 | owners receive the dense reduction of the overlaps masked to each rank's needed rows |
| TwoSidedUpdate.ExportedIsPlain | GenTen/src/Genten_DistKtensorUpdate.cpp:1431-1484 | written out: every component of a received row is the sum over the ranks that need the row |
| TwoSidedUpdate.KtensorTwoSidedUpdate.UnpackSum | GenTen/src/Genten_DistKtensorUpdate.cpp:1467-1484 | zeroing and adding the received rows gives one owner's part of that reduction |
| TwoSidedUpdate.ContributionsAreMaskedSum | GenTen/src/Genten_DistKtensorUpdate.cpp:1474-1481 | adding up the received contributions to a row is the masked sum over all ranks |
| TwoSidedUpdate.Unpack | GenTen/src/Genten_DistKtensorUpdate.cpp:1373-1385 | writing received rows changes exactly the listed rows |
| TwoSidedUpdate.TransposeTwice | GenTen/src/Genten_DistKtensorUpdate.cpp:1367-1370 | exchanging twice, as import and export do in opposite directions, is the identity |
| OneSidedUpdate.StepInv | GenTen/src/Genten_DistKtensorUpdate.cpp:494-534 | every step of every rank, and every landing access, keeps the protocol invariant |
| OneSidedUpdate.LandsInItsEpoch | GenTen/src/Genten_DistKtensorUpdate.cpp:662-704 | an access only lands while its target is inside the same epoch, so never before the window is zeroed or filled and never after it is read |
| OneSidedUpdate.EveryRunIsSafe | GenTen/src/Genten_DistKtensorUpdate.cpp:494-704 | over every run of any list of imports and exports, with ranks as far apart as the fences allow, gets see the owner's rows and copied-out windows are complete sums |
| OneSidedUpdate.NoDeadlock | GenTen/src/Genten_DistKtensorUpdate.cpp:494-704 | while some rank is not finished, some step is possible |
| OneSidedTermination.StepCounted | GenTen/src/Genten_DistKtensorUpdate.cpp:494-704 | every step of the protocol is one more of the steps that its state counts |
| OneSidedTermination.RunsAreBounded | GenTen/src/Genten_DistKtensorUpdate.cpp:494-704 | in every interleaving a run has at most five steps for each rank and epoch and two for each access; it has that many if and only if every rank has finished every epoch, and if and only if no step is possible, and then every access has landed |
| OneSidedUpdate.CopyOutIsRight | GenTen/src/Genten_DistKtensorUpdate.cpp:698-702 | the window copied out after the closing fence is the sum of all contributions |
| OneSidedUpdate.ImportAgrees | GenTen/src/Genten_DistKtensorUpdate.cpp:494-534 | after the closing fence of an import the overlap is what the two-sided import gives |
| OneSidedUpdate.ExportAgrees | GenTen/src/Genten_DistKtensorUpdate.cpp:662-704 | after an export the owner holds what the two-sided export gives |
| OneSidedMaps.KtensorOneSidedUpdate.UpdateTensor | GenTen/src/Genten_DistKtensorUpdate.cpp:126-160 | the map has exactly the rows of the nonzeros, each with its owner |
| OneSidedMaps.KtensorOneSidedUpdate.Accesses | GenTen/src/Genten_DistKtensorUpdate.cpp:511-530 | in whatever order the map keeps its slots, every needed row is accessed once, at its owner |
| OneSidedMaps.LayerMaps | GenTen/src/Genten_DistKtensorUpdate.cpp:126-160 | so do all ranks of a layer, from the subscripts of their nonzeros |
| OneSidedMaps.MapsMakeSession | GenTen/src/Genten_DistKtensorUpdate.cpp:494-704 | an epoch with such accesses is what the distributed run asks for, and the rank that the map names is the access's target |
| OneSidedMaps.MapsMakeEpoch | GenTen/src/Genten_DistKtensorUpdate.cpp:494-704 | an import of the layer's rows, or an export of its overlaps, with such accesses is an epoch of the protocol |
| Mttkrp.TermLoop | GenTen/performance/Genten_MTTKRP.cpp:242-245 | the inner loop returns value times the component's weight times the product of the entries that the subscripts select in all other modes' factors |
| Mttkrp.MttkrpReference | GenTen/performance/Genten_MTTKRP.cpp:237-250 | the loop nest with atomic adds computes the MTTKRP of every mode; column r is weight r times the column without weights |
| Mttkrp.MttkrpIsPlain | GenTen/performance/Genten_MTTKRP.cpp:237-250 | written out: an entry is the sum over the nonzeros of its row of value times weight times the selected entries of the other factors |
| DistributedMttkrp.LocalIsShare | GenTen/performance/Genten_MTTKRP.cpp:237-250 | a rank's local product equals its nonzeros' share of the global product |
| DistributedMttkrp.OtherLayersAreSilent | GenTen/src/Genten_DistTensorContext.cpp:983-996 | ranks of other layers contribute nothing to a row |
| DistributedMttkrp.SharesMakeUpTheRow | GenTen/src/Genten_DistTensorContext.cpp:326-424 | the shares of all ranks add up to the serial result |
| DistributedMttkrp.LayerIsSerial | GenTen/src/Genten_DistKtensorUpdate.cpp:1431-1484 | the masked reduction over one layer is the serial MTTKRP |
| DistributedMttkrp.DistributedIsSerial | GenTen/src/Genten_DistKtensorUpdate.cpp:1336-1484 | after import, local products and export every owner holds its rows of the serial MTTKRP, whatever untouched rows contain |
| DistributedRun.LayerIsCut | GenTen/src/Genten_DistTensorContext.cpp:1130-1153 | the ranks of a layer together hold the layer's rows, at the offsets of the update tables |
| DistributedRun.ImportMode | GenTen/src/Genten_DistKtensorUpdate.cpp:1336-1388 | over all layers of a mode every rank's overlap has the needed rows of the global factor |
| DistributedRun.ExportMode | GenTen/src/Genten_DistKtensorUpdate.cpp:1431-1484 | over all layers every rank receives its rows of the serial MTTKRP |
| DistributedRun.DistributedMttkrpRun | GenTen/src/Genten_DistKtensorUpdate.cpp:1071-1484 | from rank 0's tensor and factors to the exported result, for any grid, mode and row-listing path: it is reached exactly when the tensor can be distributed, and then every rank holds exactly its rows of the MTTKRP of the whole tensor |
| DistributedRun.HeldEntry | GenTen/src/Genten_DistKtensorUpdate.cpp:1431-1484 | written out: entry (k, q) of what rank t holds is entry (first row of t + k, q) of the MTTKRP of the whole tensor |
| OneSidedRun.ImportReady | GenTen/src/Genten_DistKtensorUpdate.cpp:494-534 | in every interleaving, once a layer has closed an import every rank's overlap has the needed rows of the global factor |
| OneSidedRun.ExportHolds | GenTen/src/Genten_DistKtensorUpdate.cpp:662-704 | in every interleaving, a rank that has copied out an export holds its rows of the serial MTTKRP |
| OneSidedRun.OneSidedMttkrpRun | GenTen/src/Genten_DistKtensorUpdate.cpp:494-704 | over all layers and modes, whatever the interleavings: after imports, local products and exports every rank holds exactly its rows of the MTTKRP of the whole tensor |
| Sums.ProductTensorSum | GenTen/src/Genten_CP_Model.hpp:190-201 | the sum of a product tensor over all its entries is the product of one sum per mode |
| KtensorAlgebra.ModelsInner | GenTen/src/Genten_CP_Model.hpp:190-218 | the inner product of two full model tensors is a double sum over components of weights and cross Gram entries |
| KtensorAlgebra.NormIdentity | GenTen/src/Genten_CP_Model.hpp:216-218 | sum(gram[n] .* hada[n]) is the squared norm of the full model, for any singled-out mode |
| KtensorAlgebra.DataNorm | GenTen/src/Genten_CP_Model.hpp:128-130 | the norm over stored nonzeros is the norm of the full data tensor |
| KtensorAlgebra.ResidualExpand | GenTen/src/Genten_CP_Model.hpp:216-224 | norm of X squared plus norm of M squared minus twice the inner product is the squared distance over all entries |
| KtensorAlgebra.MttkrpInner | GenTen/src/Genten_CpAls.cpp:320-324 | the inner product of data and model is that of any mode's MTTKRP with that factor |
| KtensorAlgebra.ModelLinear | GenTen/src/Genten_CP_Model.hpp:76-78 | the model is linear in each factor |
| KtensorAlgebra.ModelsDifferInOne | GenTen/src/Genten_CP_Model.hpp:249-252 | models that differ in factor n have inner product of (factor times hada[n]) with the other factor |
| KtensorAlgebra.ResidualExpansion | GenTen/src/Genten_CP_Model.hpp:240-256 | the squared residual is an exact quadratic in one factor, with MTTKRP and hada as coefficients |
| PlainForms.ModelIsPlain | GenTen/src/Genten_CP_Model.hpp:76-78 | written out: an entry of the model is the sum over components of weight times the product of the selected factor entries |
| PlainForms.DataIsPlain | GenTen/src/Genten_CP_Model.hpp:128-130 | written out: an entry of the data is the value of the nonzero there, or zero |
| PlainForms.InnerIsPlain | GenTen/src/Genten_CP_Model.hpp:214-220 | written out: the inner product of two full tensors is the sum over all entries |
| PlainForms.ResidualIsPlain | GenTen/src/Genten_CP_Model.hpp:76-78 | written out: the squared distance is the sum over all entries of the full tensor of the squared difference of data and model |
| PlainForms.SquaresArePlain | GenTen/src/Genten_CP_Model.hpp:128-130 | written out: the squared norm of the data is the sum of the squares of the stored values |
| PlainForms.EntrySumIsPlain | GenTen/src/Genten_CP_Model.hpp:220-224 | written out: the inner product of data and a tensor is the sum over the nonzeros |
| PlainForms.HadaIsPlain | GenTen/src/Genten_CP_Model.hpp:194-201 | written out: two weights times the product of the other factors' sums over rows of products of two columns |
| PlainForms.GramIntoIsPlain | GenTen/src/Genten_FacMatrix.cpp:744-764 | written out: the rank-k update writes sums of products of two columns to the upper triangle, in the full formulation to both, and keeps the rest |
| PlainForms.MatMulIsPlain | GenTen/src/Genten_CP_Model.hpp:249-252 | written out: an entry of a matrix product is the sum of products along a row and a column |
| PlainForms.FrobIsPlain | GenTen/src/Genten_CP_Model.hpp:228-231 | written out: the inner product of two matrices is the sum over all entries |
| PlainForms.InnerProdIsPlain | GenTen/src/Genten_FacMatrix.cpp:3139-3173 | written out: the weighted inner product multiplies every product of entries by its column's weight |
| FactorMatrix.SumUpperSpec | GenTen/src/Genten_FacMatrix.cpp:1699-1736 | the upper-triangle sum is the sum of the whole symmetric matrix whatever the lower triangle holds |
| PlainForms.SumUpperIsPlain | GenTen/src/Genten_FacMatrix.cpp:1699-1736 | written out: the diagonal once and the strict upper triangle twice |
| FactorMatrix.ColScaledEntry | GenTen/src/Genten_FacMatrix.cpp:1503-1524 | written out: every entry is multiplied by its column's weight |
| CpModel.CpModel.Update | GenTen/src/Genten_CP_Model.hpp:188-204 | gram and hada are the Gram matrices and their weighted Hadamard products without one mode |
| CpModel.CpModel.Value | GenTen/src/Genten_CP_Model.hpp:214-235 | the cached value is the objective by its definition, less twice the scaled difference of the two inner products that the overlap's and the model's weights give |
| CpModel.CpModel.Gradient | GenTen/src/Genten_CP_Model.hpp:240-256 | the mode-by-mode computation gives the gradient formula with the MTTKRP of the overlap's weights |
| CpModel.Problem.GradientIsExact | GenTen/src/Genten_CP_Model.hpp:188-256 | replacing factor n by itself plus V changes the objective by exactly the inner product of gradient and V plus a quadratic term, for any weights |
| CpModel.Problem.CurvatureIsNonNegative | GenTen/src/Genten_CP_Model.hpp:249-252 | that quadratic term is the squared norm of the model with V as the factor |
| CpModel.CpModel.ValueAndGradient | GenTen/src/Genten_CP_Model.hpp:269-310 | same gradient; the value is the objective less the error of the inner-product shortcut |
| CpModel.Problem.ObjectiveIsPlain | GenTen/src/Genten_CP_Model.hpp:214-235 | written out: the scaled squared distance plus the scaled penalty times the sum of the factors' squared norms |
| CpModel.Problem.GradientIsPlain | GenTen/src/Genten_CP_Model.hpp:240-256 | written out: an entry of the returned gradient, with the model's weights in one part and the overlap's in the other |
| CpModel.OverlapIsExact | GenTen/src/Genten_CP_Model.hpp:214-256 | value and gradient are right for all data and factors if and only if the overlap has the model's weights |
| CpModel.ShortcutIsExact | GenTen/src/Genten_CP_Model.hpp:279-280 | the value of value_and_gradient is right for all data and factors if and only if multiplying by the overlap's weights leaves the model's weights as they are |
| CpModel.OverlapKinds | GenTen/src/Genten_Ktensor.cpp:52-58 | what these conditions are for an overlap that aliases the model, and for one of its own with weights one |
| CpModel.WeightsGoWrong | GenTen/src/Genten_CP_Model.hpp:214-280 | a concrete tensor, factor and weight for which each of them is wrong |
| LeastSquares.NormalEquations | GenTen/src/Genten_CpAls.cpp:272-280 | a solution of the shifted system satisfies the normal equations against every direction |
| PlainForms.SolvesIsPlain | GenTen/src/Genten_CpAls.cpp:272-280 | written out: row times the shifted product of Gram matrices equals the MTTKRP without weights, entry by entry |
| LeastSquares.SolutionIsOptimal | GenTen/src/Genten_CpAls.cpp:272-280 | a solved factor minimises residual plus penalty among all factors of its mode |
| LeastSquares.PenaltyDetermines | GenTen/src/Genten_CpAls.cpp:272-280 | with a positive penalty the normal equations have at most one solution |
| LeastSquares.WeightsIntoFactor | GenTen/src/Genten_CpAls.cpp:283-303 | splitting column norms off a factor does not change the model |
| LeastSquares.UpdateImproves | GenTen/src/Genten_CpAls.cpp:244-311 | without penalty a model whose weighted factor solves for its mode is no farther from the data than any model with the same other factors, nor than the zero tensor |
| LeastSquares.InnerFromLastMode | GenTen/src/Genten_CpAls.cpp:258-260 | the saved last-mode MTTKRP gives the inner product of data and model after its factor changed |
| LeastSquares.NormFromUpper | GenTen/src/Genten_CpAls.cpp:313-318 | the upper triangle of the final product sums to the squared norm of the model |
| AlsRuns.ColScaleInverse | GenTen/src/Genten_FacMatrix.cpp:1503-1524 | fails exactly when a weight is zero; otherwise every entry times its column's weight is the entry before |
| AlsRuns.ResNormIsExact | GenTen/src/Genten_CpAls.cpp:464-502 | over exact reals the residual formula never reaches its error branch and returns the residual |
| AlsRuns.ResNormIsPlain | GenTen/src/Genten_CpAls.cpp:464-502 | written out for any three numbers: the root of a positive square, zero down to the threshold, an error below it |
| AlsRuns.TimesGram | GenTen/src/Genten_CpAls.cpp:262-270 | one Hadamard step adds one Gram matrix, on the triangle that the formulation keeps |
| AlsRuns.SystemIsNormalEquations | GenTen/src/Genten_CpAls.cpp:272-280 | full or symmetric, the system given to the solver is the normal equations of the tensor |
| AlsRuns.SystemIsPlain | GenTen/src/Genten_CpAls.cpp:262-280 | written out: an entry of the solver's matrix is the product of the other Gram matrices' entries, with the penalty on the diagonal |
| AlsRuns.AlsProblem.EndsIsPlain | GenTen/src/Genten_CpAls.cpp:272-303 | written out: what the solver is asked for, and that an update fails exactly when the solver does or a column norm of its solution is zero |
| CpAls.CpAls.constructor | GenTen/src/Genten_CpAls.cpp:175-201 | unit weights, and Gram matrices of all modes but the first, whatever the first holds |
| CpAls.CpAls.MakeUpsilon | GenTen/src/Genten_CpAls.cpp:262-270 | upsilon is the Hadamard product of the Gram matrices of the other current factors |
| CpAls.CpAls.SolveMode | GenTen/src/Genten_CpAls.cpp:272-280 | returns what the solver returns for the normal equations of the tensor, an error exactly when it does; a solved factor satisfies them and upsilon is as before the shift |
| CpAls.CpAls.UpdateMode | GenTen/src/Genten_CpAls.cpp:249-311 | fails exactly when the solver does or a column norm of its solution is zero, and then leaves the model alone; otherwise Gram bookkeeping holds for every mode again, only factor n changes, with its weights it is the solver's solution of the normal equations, and its weights are the column norms of that solution; a zero column can only occur in the first sweep |
| AlsRuns.AlsProblem.UpdateIsPlain | GenTen/src/Genten_CpAls.cpp:249-311 | written out: one factor is replaced; with its weights it minimises squared distance plus penalty among all factors of its mode, and no weight is zero |
| AlsRuns.NormsArePlain | GenTen/src/Genten_CpAls.cpp:283-303 | written out: Euclidean column norms in the first sweep; later the largest entry up to its sign, but at least one |
| CpAls.CpAls.FinishSweep | GenTen/src/Genten_CpAls.cpp:313-332 | pNorm squared is the squared norm of the model, xpip its inner product with the data, the residual squared their distance; the fit is at most one, and what it lacks from one, squared, times the squared norm of the data is that distance |
| CpAls.CpAls.Sweep | GenTen/src/Genten_CpAls.cpp:248-311 | sweep k appends to the run one model per mode, each what the solver makes of the one before; it ends early only with the failure that the next update has |
| CpAls.CpAls.InitialFit | GenTen/src/Genten_CpAls.cpp:224-232 | a positive fit of the initial guess has the same meaning; it is zero exactly when the guess is no nearer to the data than the zero tensor |
| AlsRuns.AlsProblem.RunImproves | GenTen/src/Genten_CpAls.cpp:244-311 | without penalty no model of a run is farther from the data than one before it |
| AlsRuns.AlsProblem.FitsImprove | GenTen/src/Genten_CpAls.cpp:327-332 | without penalty the fits after the sweeps of a run are in [0,1] and never go down |
| AlsRuns.AlsProblem.ModeUpdateUnique | GenTen/src/Genten_CpAls.cpp:272-303 | when the normal equations have one solution there is one mode update |
| AlsRuns.AlsProblem.PenaltyMakesUnique | GenTen/src/Genten_CpAls.cpp:272-303 | with a positive penalty there is only one mode update of a model |
| AlsRuns.AlsProblem.RunsAgree | GenTen/src/Genten_CpAls.cpp:244-311 | with a positive penalty two runs from the same guess, serial or on a grid, have the same models |
| AlsRuns.AlsProblem.LoopImproves | GenTen/src/Genten_CpAls.cpp:244-366 | how the main loop may end implies, without penalty, that distances never go up, fits are in [0,1] and never go down, and the tolerance alone bounds the sweeps by floor(1/tol)+2 |
| AlsRuns.AlsProblem.Finish | GenTen/src/Genten_CpAls.cpp:313-332 | from the reduced or serial inner product, the saved product of Gram matrices and the last one: the norm of the model, the residual, and a fit that lacks from one the residual's share of the data |
| AlsRuns.AlsProblem.FitMeans | GenTen/src/Genten_CpAls.cpp:332 | (1 - fit) squared times the squared norm of the data is the squared distance, and no fit exceeds one |
| AlsRuns.AlsProblem.LoopIsPlain | GenTen/src/Genten_CpAls.cpp:334-366 | written out for every sweep: what its fit says about its model, that the loop goes on only while the clock allows and the fit changes by the tolerance at least, and that it stops early only when one of them fails |
| AlsRuns.AlsProblem.SweepsBounded | GenTen/src/Genten_CpAls.cpp:334-366 | fits in [0,1] that never go down allow at most floor(1/tol)+1 sweeps that the rule does not stop |
| CpAls.CpAls.Run | GenTen/src/Genten_CpAls.cpp:244-366 | the models form a run of solver updates from the initial guess, every fit is that of the model after its sweep, (1 - fit) squared times the squared norm of the data being its squared distance, and the loop goes on exactly until the stopping rule, maxIters, or an update whose solve fails or whose solution has a zero column; without penalty distances never go up, fits are in [0,1] and never go down, and the tolerance alone bounds the sweeps by floor(1/tol)+2 |
| RowSplit.Split.ReducedSum | GenTen/src/Genten_Pmap.cpp:198-205 | sums over the ranks' own rows, reduced over all ranks, are the sum over all rows |
| RowSplit.Split.ReducedMax | GenTen/src/Genten_FacMatrix.cpp:1144-1147 | largest entries of the ranks' rows, reduced over all ranks, are the largest entry of the column: no entry is farther from zero, and it is zero or an entry up to its sign |
| DistributedAls.ReducedGram | GenTen/src/Genten_FacMatrix.cpp:744-764 | the ranks' Gram matrices add up to that of the whole factor, in the entries that are kept |
| DistributedAls.ReducedNormsAreNorms | GenTen/src/Genten_FacMatrix.cpp:1128-1213 | column norms reduced over the ranks are those of the whole factor |
| DistributedAls.SolvedOnGrid | GenTen/src/Genten_CpAls.cpp:272-280 | the rows that the ranks solve for are a solution of the serial normal equations |
| DistributedAls.UpdateModeOnGrid | GenTen/src/Genten_CpAls.cpp:249-311 | fails exactly when some rank's solve does or a reduced column norm is zero; otherwise it is a mode update of the serial loop, every rank ends with its rows of the new factor, and all with the same weights and Gram matrices |
| DistributedAlsRun.StartOnGrid | GenTen/src/Genten_CpAls.cpp:175-201 | unit weights, and reduced Gram matrices of all modes but the first |
| DistributedAlsRun.SweepOnGrid | GenTen/src/Genten_CpAls.cpp:248-311 | a sweep on a grid is a stretch of a serial run; it ends early only with the failure that the next update has |
| DistributedAlsRun.ReducedInner | GenTen/src/Genten_FacMatrix.cpp:3175-3205 | the ranks' weighted inner products add up to that of the whole matrices |
| DistributedAlsRun.FinishOnGrid | GenTen/src/Genten_CpAls.cpp:313-332 | the fit from reduced quantities is the fit of the model that the ranks hold together: (1 - fit) squared times the squared norm of the data is its squared distance |
| DistributedAlsRun.RunOnGrid | GenTen/src/Genten_CpAls.cpp:244-366 | the whole loop on a grid is a run of the serial loop with the same fits and stopping rule, ends early only with the failure that the next update has, and never gets worse without penalty |
| DistributedAlsRun.CpAlsOnGrid | GenTen/src/Genten_CpAls.cpp:175-366 | from rank 0's tensor and guess: it starts exactly when the nonzeros can be distributed, and ends as such a run |
| FacMatrixKernels.FacMatrix.Oprod | GenTen/src/Genten_FacMatrix.cpp:806-823 | entry (i, j) becomes v[i] times v[j] |
| FacMatrixKernels.FacMatrix.Times | GenTen/src/Genten_FacMatrix.cpp:228-238 | every entry becomes its old value times the other matrix's, also with itself |
| FacMatrixKernels.FacMatrix.SumUplo | GenTen/src/Genten_FacMatrix.cpp:1699-1736 | diagonal plus twice the strict upper triangle, accumulated row by row |
| FacMatrixKernels.FacMatrix.Permute | GenTen/src/Genten_FacMatrix.cpp:1771-1850 | fails exactly for a wrong length or an index out of range; the tracked indices are the identity with the listed column swaps applied, column k of the data is always column curr[k] of the start, and they end equal to the request if and only if it has no duplicates, then in fewer swaps than columns |
| FacMatrixKernels.FacMatrix.SwapStep | GenTen/src/Genten_FacMatrix.cpp:1815-1850 | a column swap keeps the tracked indices a permutation that describes the data |
| FacMatrixKernels.FacMatrix.Scratch | GenTen/src/Genten_FacMatrix.cpp:421-450 | scratch space holds the products of two column blocks over the rows of one team |
| FacMatrixKernels.FacMatrix.RunBlock | GenTen/src/Genten_FacMatrix.cpp:414-467 | one pair of column blocks adds the team's products to the block and, for two different blocks, to its mirror image |
| FacMatrixKernels.FacMatrix.Gramian | GenTen/src/Genten_FacMatrix.cpp:470-524 | over all teams and block pairs every entry of both triangles is the sum over the rows of the products of two columns |
| ColumnMax.ThreadMax | GenTen/src/Genten_FacMatrix.cpp:919-936 | no entry of the thread's rows of the block is farther from zero than its value, which is zero or an entry of the block up to its sign |
| ColumnMax.BlockMax | GenTen/src/Genten_FacMatrix.cpp:908-949 | no entry of the team's 128 rows is farther from zero than its value, which is zero or one of them up to its sign |
| ColumnMax.StepInv | GenTen/src/Genten_FacMatrix.cpp:950-970 | every read and compare-exchange keeps the invariant and the cell never goes down |
| ColumnMax.RunsAreBounded | GenTen/src/Genten_FacMatrix.cpp:950-970 | in every interleaving a team fails less often than there are teams, and all runs are finite |
| ColumnMax.Advance | GenTen/src/Genten_FacMatrix.cpp:958-969 | a team that is not finished can always take a step |
| ColumnMax.FinalIsColumnMax | GenTen/src/Genten_FacMatrix.cpp:1121-1142 | when all teams are done no entry of the column is farther from zero than the cell, which is zero or one of them up to its sign |
| ColumnMax.ColNormInf | GenTen/src/Genten_FacMatrix.cpp:908-972 | the kernel for one column, from the threads' loops to the retries in any order, ends with the largest distance of an entry from zero |
| BlockEnumeration.QuadsClosed | GenTen/joint_moments/Genten_HigherMoments.cpp:136-143 | the number of non-decreasing quadruples below n is (n+3)(n+2)(n+1)n/24, an exact division |
| BlockEnumeration.RankBelowCount | GenTen/joint_moments/Genten_HigherMoments.cpp:89-104 | every write of the loop nest is inside the array |
| BlockEnumeration.GetIndexArray | GenTen/joint_moments/Genten_HigherMoments.cpp:87-104 | the array is filled exactly with all quadruples i<=j<=k<=l below nblocks, once each, in dictionary order |
| BlockEnumeration.RankToBlockIndex | GenTen/joint_moments/Genten_HigherMoments.cpp:108-116 | the four numbers at a rank are the quadruple of that rank |
| Moments.MomentSymmetric | GenTen/joint_moments/Genten_HigherMoments.cpp:351-357 | the moment tensor is the same for every arrangement of its indices |
| Moments.MomentIsPlain | GenTen/joint_moments/Genten_HigherMoments.cpp:236-276 | written out: the number of rows times the moment is the sum over the rows of the product of the four entries |
| Moments.ResultIsPlain | GenTen/joint_moments/Genten_HigherMoments.cpp:236-276 | written out: rows of whole tiles count for one over the number of rows, those of a partial tile for one |
| Moments.Job.BlockSizeSpec | GenTen/joint_moments/Genten_HigherMoments.cpp:134-213 | blocks of columns, the last one possibly odd, tile the matrix and are not empty |
| Moments.TileSizeIsRight | GenTen/joint_moments/Genten_HigherMoments.cpp:236-276 | the tiles add up to the moments for all data if and only if the tile size divides the number of rows or there is one row |
| MomentBlocks.WholeTileTerms | GenTen/joint_moments/Genten_HigherMoments.cpp:236-276 | only the rows that a whole tile fills in are new terms; the others count for nothing |
| MomentBlocks.AddTile | GenTen/joint_moments/Genten_HigherMoments.cpp:236-276 | the number of rows times what a whole tile adds, and what the partial tile adds, is the sum over the multiplied rows of the scratch of the products of two columns; the partial tile leaves its row count in the scratch |
| MomentBlocks.ComputeBlock | GenTen/joint_moments/Genten_HigherMoments.cpp:222-277 | for any scratch: a block's matrix is the weighted sums over the new rows of all tiles, and the left-over rows once for every whole tile; and what the scratch holds afterwards |
| MomentBlocks.FreshIsRight | GenTen/joint_moments/Genten_HigherMoments.cpp:222-277 | with a fresh scratch, or without a whole tile, these are the results for the columns that the block stands for |
| MomentBlocks.ComputeBlocks | GenTen/joint_moments/Genten_HigherMoments.cpp:155-278 | every block in every case: a team's first block, and all when there is no partial tile or no whole one, hold their results; every other block of the team also adds up what the last whole tile of the first one left |
| MomentBlocks.CleanIsRight | GenTen/joint_moments/Genten_HigherMoments.cpp:155-278 | when no team meets such a left-over every unique block holds its results |
| Cokurtosis.DecodePosition | GenTen/joint_moments/Genten_HigherMoments.cpp:335-343 | the linear position in a block is taken apart into the columns that the products used |
| Permutations.NextIsLarger | GenTen/joint_moments/Genten_HigherMoments.cpp:355-357 | next_permutation fails exactly for a descending list and otherwise gives a larger arrangement of the same values |
| Permutations.NextIsSuccessor | GenTen/joint_moments/Genten_HigherMoments.cpp:355-357 | no arrangement lies between a list and its next permutation |
| Permutations.NextIsPlain | GenTen/joint_moments/Genten_HigherMoments.cpp:355-357 | written out: there is a next list exactly when some value is below its right neighbour; it has the same values and is larger where it first differs |
| Permutations.PrecedesIsPlain | GenTen/joint_moments/Genten_HigherMoments.cpp:355-357 | dictionary order written out |
| Cokurtosis.WriteArrangements | GenTen/joint_moments/Genten_HigherMoments.cpp:351-357 | sorting and then writing at every next permutation writes the value at all arrangements of the indices and leaves every other entry as it was |
| Cokurtosis.SpreadIsPlain | GenTen/joint_moments/Genten_HigherMoments.cpp:351-357 | written out: an entry is the value when its four indices are those of p in some order, and as before otherwise |
| Cokurtosis.EveryEntryCovered | GenTen/joint_moments/Genten_HigherMoments.cpp:296-361 | every entry of the tensor is written by some unique block |
| Cokurtosis.CokurtosisImpl | GenTen/joint_moments/Genten_HigherMoments.cpp:118-384 | every entry of the result is an entry, for an arrangement of its columns, of a block that the teams have computed; it is the sum of the tiles whenever no team meets a left-over, and when the tile size divides the rows or there is one row, the number of rows times it is the sum over the rows of the product of its four columns |
| KhatriRaoSplit.Thread | GenTen/joint_moments/compute_krp.hpp:68-110 | a thread writes its row in its team's columns and nothing else; row i * nrows + j gets the products of data rows i and j |
| KhatriRaoSplit.ComputeKhatriRaoProduct | GenTen/joint_moments/compute_krp.hpp:68-110 | exactly the rows that the threads reach are computed, each in every column, and row i * nrows + j holds the products of data rows i and j |

## Left out

- Rows of factor matrices travel as whole rows; the flat offsets nc*i+j, strides and padding are not modelled.
- The exchange methods other than all-gather/reduce, two-sided and one-sided, and the dense-tensor branches of the sparse update objects.
- Atomic adds of the two-sided export, the reference MTTKRP and the blocked Gram matrix happen one after the other; only their sum is modelled, and addition of exact reals has no order.
- Kokkos teams that write to disjoint places run one after the other in the kernels; interleaving is modelled where it matters, in the put epoch, the one-sided windows and the column maximum.
- ColumnMax: one column at a time; the column blocks only group independent columns.
- KtensorUpdate, TwoSidedUpdate and OneSidedUpdate treat one mode and one layer; DistributedRun adds the loops over modes and layers.
- Weights in exportFromRoot are copied before they are broadcast, so round trips are about factor matrices only.
- A second dense distributeTensorImpl call fills data only in its first-call branch and is not modelled.
- Cokurtosis.CokurtosisImpl: on a diagonal block several positions stand for the same entry and the last one written stays; when a team meets a left-over they may differ, and which one it is is not stated.
- DenseDistribution.DistributeDense: slices are taken to lie in grid-rank order. The caller that reads a file cuts slices by world rank (GenTen/src/Genten_DistTensorContext.cpp:883-889) while the grid's communicator may reorder ranks; a permutation that is not the identity is not modelled.
- DistributedAlsRun.RunOnGrid: overlaps are imported afresh for every local product, where the code keeps them and imports the mode that changed; the fit of the initial guess, which is only reported.
- Records.PackAll: what happens after a subscript is written outside its record.
- CpAls.CpAls.Run: the final normalisation and arrangement of the components, the reported iteration count and the timers; the bound is on loop bodies.
- CpAls.CpAls.Run: monotone distances and fits are stated for zero penalty; with a penalty the run, the fits, the stopping rule and the optimality of each solve are.
- FacMatrixKernels.FacMatrix.Permute: a request with repeated indices is not rejected by the code; the tracked permutation still describes the data.
- Bodies of LAPACK, cuBLAS, rocBLAS, MKL and MPI; Tpetra; rounding, machine epsilon and DBL_MIN thresholds other than their sign.
- Goal terms, Hessian-vector products, preconditioners, random initial guesses, annealers, drivers, file input and output, and the language bindings.
