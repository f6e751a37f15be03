# Dynamic CSSC: encrypted sparse query, verified model

This project models how the repository answers one encrypted sparse
matrix-vector query, and the checks around it, and proves what those pieces
guarantee together.

A sparse matrix is placed into lanes: segments of `2^m` lanes, each owned by one
logical row. The query is gathered by true global column into the same lanes. A
straight-line program multiplies, relinearises, reduces every segment by a
rotate-and-add ladder, keeps the segment starts, adds an F1-M mask and returns.
The client adds the returned lanes per row modulo `p` and centres. The number of
components, the row size, the ladder depth, the modulus, the query, the terms and
the masks are all parameters.

A ciphertext is its slot vector modulo `p` (two rows of half the batch each)
together with its element count; a rotation is the cyclic shift inside each row
that `cpp/microbench.cpp:262-295` pins. That the encryption library computes this
slot arithmetic is the one assumption of the model.

The files, by theme:

- Arithmetic and lanes: `Modular`, `Lanes`, `Reduction`, `Sequences`, `Outcomes`.
- The Cloud program: `Naming` and `Emitter` (the compiler), `CloudProgram` (the
  runner), `RunOutcome` (what any run comes to), `TypedRuns` and `EmittedRun` (the
  compiler's output runs to the end and computes the circuit).
- The matrix and the client: `Placement`, `PackedComponent`, `LogicalMatrix`,
  `ClientMerge`, `WholeQuery`, `OperandReplay`, `OperandLabels`, `TraceLabels`,
  `WholeTrace`, `F1MMasks`, `F1MDraws`, `Pipeline`, `EndToEnd`.
- The client's side of a request: `ProgramRules` (the public rules of programs and
  what they promise the runner), `ProgramCounts` (who reads whom in an accepted
  program), `UnmaskedResults`, `Validator` (the static validator), `ClientPlan` (key
  plans), `BuiltRequest` (the canonical request), `EmittedAccepted`.
- The runner's request and package: `Request`, `RotationKeys`, `RowConfinement`,
  `Session`, `Producer`, `Escape`, `ReplayPackage`, `KeyFrame`.
- The two together: `ValidatedSession`, `DeployedSession`, `PlacementSession`, and
  the instances in `Example`.
- Sampling, scheduling, evidence: `Sampling`, `QuerySchedule`, `QueryTimes`,
  `QueryScaling`, `MaskLeaders`, `LabelRotation`, `CellPaths`.

Code that updates things in place is a method or a class proved against a
specification function; the theorems are about those functions.
`Example.HypothesesMet` and `Example.TraceHypothesesMet` exhibit one deployment
that meets every hypothesis of the top theorems. Every lemma switches automatic
induction off.

Properties that do not hold as first stated, with the exact condition:

- The escape check is not dead code. An accepted request can run and spill beyond
  `slot_count` if and only if `slot_count` is below the row size and the rotation
  catalog is nonempty, for any modulus of at least two (`EscapeIsPossibleIff`).
  Programs that return blinded selections, the emitted one among them, never do.
  Static validation does not narrow this: the strict rules blind every result but
  do not ask for a selection (`ValidatedEscapeIsPossibleIff`).
- A program the static validator accepts does not always run. It does if and only
  if it has a node and no node id is longer than 512 characters: the validator
  takes the empty program and has no bound on identifiers, the runner refuses both
  (`AcceptedProgramRuns`).
- A request the client builds is not always parsed by the runner: the client does
  not compare the slot count with one row, rotations with the slot count, or
  entries with 64 bits, and it builds the empty program's request
  (`EmptyProgramIsRefused`). `BuiltRequestParses` gives the exact condition. Key
  plans are never the reason: the client's own check of them is as strict as the
  runner's (`ClientPlanPasses`).
- The static bound `floor(p/2)` on the absolute products of a row makes recovery
  exact for all matrices if and only if `p` is odd (`StaticBoundSufficesIff`);
  centring recovers a row exactly on `[-floor((p-1)/2), floor(p/2)]`. The
  repository's modulus 65537 is odd, so its own bound is sound.
- The F1-M record audit alone does not force masks to cancel: it never looks at a
  lane that is alone in its coordinate inside a share masked elsewhere
  (`RecordMissesSoleLane`). `RecordCancelsIff` gives the missing condition. Only a
  preparation other than `prepare_f1m_masks` could violate it; masks made by that
  one always meet it (`PreparedMasksCancel`).
- Cell paths are injective except that the workload names `""` and `"."` add no
  path segment and so coincide (`CellPathInjective`). The plan parser admits only
  the listed workload names (`scripts/run_day1_suite.py:794-807`), so the suite
  never forms them.

What keeps a run from missing a rotation key is the cover requirement that both
plan schemas make: with an environment they refuse, a run can miss one
(`UncoveredCatalogMissesKey`), with an accepted request it cannot (`NoMissingKey`).

## Model

| member | source | states |
|---|---|---|
| EndToEnd.QueryIsAnswered | cpp/strong_packed_coo_witness.cpp:720-762 | For any components, depth, query and mask draws, the emitted program runs to the end, returns one page per component in order with every page lane determined, and the client recovers the direct product mod p, and the exact integer row when absolute products are at most floor(p/2), p odd |
| EndToEnd.EntriesWithin | cpp/strong_packed_coo_witness.cpp:159-171 | Every placed entry has a column inside the query |
| EndToEnd.WitnessIsExact | cpp/strong_packed_coo_witness.cpp:720-766 | The hand-executed witness under prepared masks is accepted and its centred merge is the exact integer product of every bounded row |
| PlacementSession.EveryPlacementIsAnswered | cpp/openfhe_query_runner.cpp:1817-1977 | For every placement of 64-bit entries into any number of declared lanes up to the row, every query, mask draw and key plan the client takes: the client builds the request, the session succeeds although the ladder may spill, and merging its results gives the product mod p, and the exact integer row within the bound |
| DeployedSession.RequestDeploys | cpp/openfhe_query_runner.cpp:1817-1923 | A request that declares the whole row and carries the placed components, the segment starts, the ladder rotations and the emitted program meets every hypothesis of the run |
| DeployedSession.SessionAnswers | cpp/openfhe_query_runner.cpp:1817-1977 | For every such request with any number of declared lanes up to the row, under prepared masks, the session succeeds, and merging its results gives the product mod p, and the exact integer row within the bound |
| DeployedSession.ServedPageIsShare | cpp/openfhe_query_runner.cpp:1939-1977 | With fewer declared lanes than the row the ladder spills, yet a page still carries segment terms plus mask at every mapped start |
| DeployedSession.ServedSession | cpp/openfhe_query_runner.cpp:1817-1977 | The session of such a request hands back exactly the declared lanes of the components' pages, in order |
| DeployedSession.KeptLanesAreShare | cpp/openfhe_query_runner.cpp:1951-1966 | The normalised declared lanes the runner keeps are as good a share as the decrypted batch |
| Example.HypothesesMet | cpp/strong_packed_coo_witness.cpp:173-198 | A base and a delta component meeting in one row, with a concrete request and one mask draw, meet every hypothesis of QueryIsAnswered, SessionAnswers and EveryPlacementIsAnswered at once |
| Example.TraceHypothesesMet | cpp/strong_whole_query_witness.cpp:697-705 | The same two components as operands meet every hypothesis of WholeTraceComputesProduct |
| Pipeline.RunWitness | cpp/strong_packed_coo_witness.cpp:720-766 | The in-place witness run is refused exactly on an inadmissible term or an out-of-range map, and otherwise returns the centred merge of the decrypted components for every row |
| Pipeline.MergeComponent | cpp/strong_packed_coo_witness.cpp:730-760 | One component placed, evaluated, decrypted and merged updates every row as the merge specification says |
| Pipeline.WitnessIsDirectProduct | cpp/strong_packed_coo_witness.cpp:730-762 | The merge of the hand-executed components equals direct sparse multiplication mod p in every row |
| Pipeline.ProgramComputesProduct | scripts/make_strong_packed_coo_witness_binding.py:129-202 | Running the emitted program through the interpreter never gets stuck and meets the closed-form operation counts; every returned page holds segment terms plus mask at starts and mask elsewhere, and the pages merge to the direct product |
| Pipeline.RecoveryIsExact | cpp/strong_packed_coo_witness.cpp:308-321 | The centred merged row is the integer row if and only if the row lies in the centred interval |
| Pipeline.AbsoluteRowBounds | cpp/strong_packed_coo_witness.cpp:752-762 | The absolute products of a row bound the row |
| Pipeline.BoundedRowIsExact | cpp/strong_packed_coo_witness.cpp:752-762 | With an odd modulus, absolute products of at most floor(p/2) make recovery exact |
| Pipeline.EvenModulusBoundFails | cpp/strong_packed_coo_witness.cpp:317-321 | For every even modulus, every row of -p/2 is recovered wrongly |
| Pipeline.StaticBoundSufficesIff | cpp/strong_packed_coo_witness.cpp:317-321 | The bound floor(p/2) on absolute products suffices for all matrices if and only if p is odd |
| ClientMerge.MergeShare | cpp/strong_packed_coo_witness.cpp:752-756 | The merge loop is refused exactly on an index outside either array and otherwise adds the normalised lane of every mapped start to its row |
| ClientMerge.MergedRowAdds | cpp/strong_packed_coo_witness.cpp:752-756 | Merging one share adds its owned terms and masks to the row mod p |
| ClientMerge.OneMoreTerm | cpp/strong_packed_coo_witness.cpp:159-198 | A placed term adds its product to the row that owns its segment, exactly once, and to no other |
| ClientMerge.OwnedTermsAreEntries | cpp/strong_packed_coo_witness.cpp:159-198 | The owned segment totals of a row are the sum of the row's matrix entries |
| ClientMerge.MergedAllAdds | cpp/strong_packed_coo_witness.cpp:730-756 | The merge of all shares is the sum of all entries and all masks of the row mod p |
| ClientMerge.MergeIsExactIff | cpp/strong_packed_coo_witness.cpp:752-762 | A merged row is the direct product mod p if and only if the masks of the row cancel mod p |
| ClientMerge.MergeIsDirectProduct | cpp/strong_packed_coo_witness.cpp:752-762 | With cancelling masks every merged row is the direct product mod p |
| ClientMerge.PageIsShare | cpp/strong_packed_coo_witness.cpp:246-306 | The decrypted page of a well-placed component carries segment terms plus mask at every mapped start |
| Placement.ComponentInput.PutTerm | cpp/strong_packed_coo_witness.cpp:159-171 | A term is refused outside the payload before any write; an unknown column is noticed only after the value lane was written; otherwise exactly one lane of each vector changes |
| Placement.MakeComponent | cpp/strong_packed_coo_witness.cpp:173-198 | Terms put in order give the placed value and aligned query vectors, refused exactly when some term is inadmissible; every lane past the payload of its segment, and the whole second row, stays zero |
| Placement.OutsidePayload | cpp/strong_packed_coo_witness.cpp:159-171 | A lane whose position in its segment is at or past the payload is zero in whatever is accepted |
| Placement.PayloadLaneHoldsTerm | cpp/strong_packed_coo_witness.cpp:159-171 | Every payload lane of the first row can hold a term |
| Placement.LastTermStays | cpp/strong_packed_coo_witness.cpp:159-171 | Of several terms for one slot the last one determines both lanes |
| Placement.PlacedWindow | cpp/strong_packed_coo_witness.cpp:159-171 | With distinct slots, the lane products of a window sum to the terms placed in it |
| Placement.EncryptedProducts | cpp/strong_packed_coo_witness.cpp:246-264 | The product ciphertext holds the lane products of the placed values and query mod p |
| PackedComponent.MakeStartMask | cpp/strong_packed_coo_witness.cpp:691-696 | The start mask is one at multiples of the segment width inside the first row and zero elsewhere |
| PackedComponent.EvaluateComponent | cpp/strong_packed_coo_witness.cpp:246-306 | The hand-executed component has the circuit's value, its trace is the emitted node list, and its two reported element counts are three and two |
| PackedComponent.ReducedSegment | cpp/strong_packed_coo_witness.cpp:271-288 | After the ladder a segment start holds its segment's terms mod p |
| PackedComponent.PageLane | cpp/strong_packed_coo_witness.cpp:288-306 | A page lane is the reduced lane times the start mask plus the mask lane mod p |
| PackedComponent.PageLanes | cpp/strong_packed_coo_witness.cpp:246-306 | A page holds segment terms plus mask at segment starts and only the mask elsewhere |
| Reduction.LadderComputesWindows | cpp/strong_packed_coo_witness.cpp:271-288 | With rotations 1, 2, ..., 2^(m-1) every lane holds the cyclic sum of the next 2^m lanes of its row mod p |
| Reduction.StarComputesWindows | cpp/strong_whole_query_witness.cpp:237-257 | With rotations 1, ..., w-1 of the source every lane holds the cyclic sum of the next w lanes mod p |
| Reduction.LadderRefinesStar | cpp/strong_whole_query_witness.cpp:237-257 | The logarithmic ladder equals the star reduction of width 2^m |
| Reduction.SegmentDoesNotWrap | cpp/strong_packed_coo_witness.cpp:691-696 | When the width divides the row, no segment-start window wraps, the tail included |
| Reduction.LadderAtSegmentStart | cpp/strong_packed_coo_witness.cpp:271-288 | At a segment start the ladder is the plain sum of the segment mod p |
| WholeQuery.EvaluateOperand | cpp/strong_whole_query_witness.cpp:203-270 | Refused exactly on a leader outside the batch or a label of more than six digits; otherwise the selected reduction plus the mask, element counts three and two, and the operand trace, whose labels TraceLabels gives their meaning |
| WholeQuery.ReduceOperand | cpp/strong_whole_query_witness.cpp:237-257 | The rotation loop is the star for base operands and the ladder for delta operands, and its trace and last sum are those of the rung list, whose labels TraceLabels gives their meaning |
| WholeQuery.OperandWindow | cpp/strong_whole_query_witness.cpp:237-257 | Either reduction leaves the window's terms at its leader |
| WholeQuery.OperandIsShare | cpp/strong_whole_query_witness.cpp:208-270 | Every operand, star or ladder, is a share of its component at every mapped leader |
| WholeQuery.WholeQueryIsDirectProduct | cpp/strong_whole_query_witness.cpp:698-739 | The first two operands of any width and any number of later ladder operands of any depth reconstruct the direct product together |
| OperandReplay.OperandReplays | cpp/strong_whole_query_witness.cpp:208-270 | A trace with new identifiers runs typed through the interpreter to the end, adds exactly its own definitions to the table, and returns the ciphertext computed by hand |
| OperandReplay.ReplayRungs | cpp/strong_whole_query_witness.cpp:237-257 | The traced rungs of either reduction, run by the interpreter, leave the reduced value under the last sum label |
| TraceLabels.DeltaLabelsMean | cpp/strong_whole_query_witness.cpp:237-257 | However the trace of a delta operand is replayed, the ciphertext under ssa-segment-sum-<operand>-<2^k>, each in six digits, holds the window sums of width 2^k of the product, and the one under ssa-rotate-<operand>-<2^k> the rotation by 2^k of the sum before |
| TraceLabels.BaseLabelsMean | cpp/strong_whole_query_witness.cpp:237-257 | For a base operand the ciphertext under ssa-column-sum-<operand>-<k> holds windows of k + 1 lanes, and the one under ssa-rotate-<operand>-<k> the product rotated by k |
| TraceLabels.FixedLabelsMean | cpp/strong_whole_query_witness.cpp:208-270 | The product, its relinearisation, the selection of the reduced value and its blinding are under the labels that name them, and the result is the blinded one |
| OperandLabels.OrdinalValue | cpp/strong_whole_query_witness.cpp:203-206 | The six-digit form determines its number |
| OperandLabels.OneOperand | cpp/strong_whole_query_witness.cpp:203-206 | A label carries the ordinal of one operand only |
| OperandLabels.LabelsAreFresh | cpp/strong_whole_query_witness.cpp:227-268 | With ascending rotations all labels of an operand are printable, pairwise distinct, carry its ordinal, and are new to every table that holds none of that ordinal, whatever other operands it holds |
| WholeTrace.EvaluateOperands | cpp/strong_whole_query_witness.cpp:697-705 | The loop over the operands is refused exactly when one of them is, and otherwise yields every operand's ciphertext and one trace, the operand traces in order |
| WholeTrace.FirstReplays | cpp/strong_whole_query_witness.cpp:208-270 | An operand's own trace, started from any table that holds none of its labels, replays to the ciphertext it computed, for either reduction |
| WholeTrace.WholeTraceReplays | cpp/strong_whole_query_witness.cpp:697-705 | The one trace of any list of operands replays through the interpreter to the end, typed; the results return in order and each is the ciphertext computed by hand |
| WholeTrace.WholeTraceComputesProduct | cpp/strong_whole_query_witness.cpp:698-739 | Decrypting the results of the replayed trace and merging them gives the direct product mod p in every row |
| WholeTrace.WholeTraceIsExact | cpp/strong_whole_query_witness.cpp:698-739 | Under prepared masks the centred merge of the replayed results is the exact integer product of every row within the bound |
| LogicalMatrix.IndependentSpmv | scripts/validate_property_contract.py:906-916 | The accumulation loop computes the row products mod m of the items it iterates, and none for a vector or row out of range |
| LogicalMatrix.ProductOfAnyEnumeration | scripts/validate_property_contract.py:906-916 | The result does not depend on the dictionary's iteration order |
| LogicalMatrix.DisjointProductsAdd | scripts/validate_property_contract.py:893-903 | The product of disjoint base and delta matrices is the sum of their products |
| LogicalMatrix.CollectedProduct | scripts/validate_property_contract.py:906-916 | A list of entries with repeated coordinates has the product of the matrix it adds up to |
| LogicalMatrix.InterpretLogicalDelta | scripts/validate_property_contract.py:868-891 | The waves are accepted exactly when every update finds as its before what the last earlier write at that coordinate left there, 0 if none, and every overflow term is nonzero and lands on 0; the result holds exactly the nonzero final values |
| LogicalMatrix.InterpretIsHistory | scripts/validate_property_contract.py:868-891 | From any dictionary, the same acceptance condition and the same contents, over the flattened list of writes |
| LogicalMatrix.UpdatesEffect | scripts/validate_property_contract.py:872-882 | Accepted updates store no zero and change every row product by the sum of (after - before) times the vector entry |
| LogicalMatrix.OverflowsEffect | scripts/validate_property_contract.py:883-889 | Accepted overflow terms store no zero and add their products |
| LogicalMatrix.WavesEffect | scripts/validate_property_contract.py:868-891 | For every accepted sequence of waves: no stored zero, and the product after is the product before plus the sum of changes |
| LogicalMatrix.CaseIsBaseAndHistory | scripts/validate_property_contract.py:893-903 | A case is accepted exactly when its waves are and leave 0 at every base coordinate; its matrix holds the last base entry of a coordinate, elsewhere the final value of the waves |
| LogicalMatrix.CaseProduct | scripts/validate_property_contract.py:893-903 | The product of a case is its base product plus all wave changes |
| F1MMasks.ValidateShareIds | src/dynamic_cssc/output_plan.py:124-132 | Share ids are accepted exactly when printable and pairwise distinct |
| F1MMasks.ValidatePlan | src/dynamic_cssc/output_plan.py:114-150 | A plan is accepted exactly when sizes are positive, share ids are acceptable, and every share is nonempty, in range and without a repeated slot |
| F1MMasks.DrawsAreZeroSums | src/dynamic_cssc/output_plan.py:236-242 | Draws followed by the closing value are exactly the residue vectors that sum to zero, each from one vector of draws |
| F1MMasks.FillCoordinate | src/dynamic_cssc/output_plan.py:243-247 | The zipped assignment writes its lanes and no other, creating exactly the shares it touches |
| F1MMasks.DrawResidues | src/dynamic_cssc/output_plan.py:236-241 | Draws are taken in order and refused exactly when one is no residue |
| F1MMasks.PrepareF1MMasks | src/dynamic_cssc/output_plan.py:189-259 | Refused exactly for a modulus below two, an invalid plan or a bad draw; otherwise overlapped coordinates hold fresh draws and a closing value, every other lane is zero, and only shares with an overlapped lane get a mask |
| F1MDraws.DrawnAreLanes | src/dynamic_cssc/output_plan.py:231-247 | The draws a preparation consumes are as many as the overlapped lanes that do not close their row; with the number of overlapped rows they make the number of overlapped lanes, all as set cardinalities |
| F1MDraws.EveryDrawAppearsOnce | src/dynamic_cssc/output_plan.py:231-247 | The draws consumed are exactly those that appear: draw i is in the i-th, by row, share and slot, of the overlapped lanes that do not close their row, and every such lane holds one |
| F1MDraws.OthersAreZero | src/dynamic_cssc/output_plan.py:189-259 | Every lane of a row that no second lane meets is zero |
| F1MMasks.CoordinateCancels | src/dynamic_cssc/output_plan.py:231-247 | Prepared lanes of a coordinate sum to zero mod p, and to zero outright when the coordinate has one lane |
| F1MMasks.PreparedMasksCancel | src/dynamic_cssc/output_plan.py:189-259 | For every plan and every draw, prepared masks cancel in every row |
| F1MMasks.PreparedMasksReconstruct | src/dynamic_cssc/output_plan.py:189-259 | Under prepared masks every merged row is the direct product mod p |
| F1MMasks.DeriveCounts | scripts/validate_property_contract.py:1033-1036 | The loops count random and dummy ciphertexts, the F1-M additions and the random elements, all four pinned by F1MDraws.RecordCounts |
| F1MMasks.CheckF1MRecord | scripts/validate_property_contract.py:965-1042 | The audit accepts exactly records with the expected kinds, zero dummies, cancelling overlaps and derived counts |
| F1MMasks.AcceptedCounts | scripts/validate_property_contract.py:1033-1042 | In an accepted record the random ciphertexts are exactly the shares that touch an overlap, and both kinds together are all shares |
| F1MDraws.RecordCounts | scripts/validate_property_contract.py:1033-1042 | In the derived counts the random elements plus the overlapped rows are the overlapped lanes, the random ciphertexts are the shares with an overlapped lane, and the other two counts are cardinalities as well |
| EndToEnd.EmittedRecordBalances | scripts/validate_property_contract.py:1033-1042 | With an emitted program the ciphertexts of both kinds add up to the F1-M additions, one a component |
| F1MMasks.PreparedPassesRecord | scripts/validate_property_contract.py:965-1025 | The audit accepts what the preparation produces |
| F1MMasks.RecordCancelsIff | scripts/validate_property_contract.py:1003-1025 | An accepted record cancels in every row if and only if the sole lanes of its random shares hold multiples of the modulus |
| F1MMasks.RecordMissesSoleLane | scripts/validate_property_contract.py:1003-1025 | An accepted record whose masks do not cancel in a row |
| Modular.NormalizeModIsResidue | cpp/strong_packed_coo_witness.cpp:308-315 | Truncating remainder plus one conditional addition is the canonical residue for either sign |
| Modular.CenterNormalizeExact | cpp/strong_packed_coo_witness.cpp:308-321 | Centring undoes normalising exactly on one interval, for every modulus |
| Modular.NormalizeCentered | cpp/strong_whole_query_witness.cpp:272-285 | Normalising undoes centring on every residue |
| Lanes.DecryptThenNormalize | cpp/openfhe_query_runner.cpp:1951-1959 | Normalising a decrypted lane gives the residue the ciphertext holds |
| Naming.DecimalInjective | cpp/strong_packed_coo_witness.cpp:273-285 | Decimal labels determine their number |
| Naming.SuffixFree | scripts/make_strong_packed_coo_witness_binding.py:129-166 | No generated suffix is a proper end of another |
| Naming.NamesDisjoint | scripts/make_strong_packed_coo_witness_binding.py:129-166 | Generated identifiers of different components or kinds never collide, whatever the component names |
| Emitter.ComponentNodes | scripts/make_strong_packed_coo_witness_binding.py:129-166 | The appending loop emits the node list of a component with every identifier spelled out |
| Emitter.ProgramOf | scripts/make_strong_packed_coo_witness_binding.py:169-202 | The program is the concatenation of its components' nodes |
| Emitter.SumLabelIsWindowWidth | scripts/make_strong_packed_coo_witness_binding.py:138-146 | In the power-of-two ladder the j-th rung is named after the rotation 2^j and its sum after 2^(j+1) |
| EmittedRun.SumHoldsLabelledWindow | scripts/make_strong_packed_coo_witness_binding.py:138-146 | At every depth m and for every k up to m, the sum labelled 2^k holds in each lane of either row the cyclic sum of the next 2^k lanes of the product |
| CloudProgram.Runner.DefineCiphertext | cpp/openfhe_query_runner.cpp:1187-1196 | An identifier is defined once, or nothing changes |
| CloudProgram.Runner.ExecuteNode | cpp/openfhe_query_runner.cpp:1239-1339 | One node moves the tables as the step specification says, or fails with its error |
| CloudProgram.Runner.ExecuteProgram | cpp/openfhe_query_runner.cpp:1226-1342 | The interpreter loop refines the run specification, result list and counters included |
| CloudProgram.RunAppend | cpp/openfhe_query_runner.cpp:1226-1342 | Running a concatenation is running its parts in order |
| RunOutcome.StepOutcome | cpp/openfhe_query_runner.cpp:1239-1339 | For every state and node: each cause of refusal, and success, in exactly the case it names |
| RunOutcome.RunSolves | cpp/openfhe_query_runner.cpp:1226-1342 | Every successful run of any program defines exactly the ids of its nodes, new and different, keeps what was there, and ends in a table that solves the equation of every node |
| RunOutcome.OnlySolution | cpp/openfhe_query_runner.cpp:1226-1342 | That table is the only one that extends the inputs and solves every node |
| RunOutcome.RunTallies | cpp/openfhe_query_runner.cpp:1226-1342 | After every successful run each counter is the number of nodes of its kind |
| TypedRuns.ReachesIsRun | cpp/openfhe_query_runner.cpp:1226-1342 | A typed run is a successful run of the interpreter |
| TypedRuns.ReachesAppend | cpp/openfhe_query_runner.cpp:1226-1342 | Typed runs compose |
| EmittedRun.RunLadder | scripts/make_strong_packed_coo_witness_binding.py:138-146 | The emitted ladder runs typed from any fresh state and leaves the ladder's value, for any ascending rotations |
| EmittedRun.RunComponent | scripts/make_strong_packed_coo_witness_binding.py:129-166 | The nodes of a component run typed to the end and leave the circuit's value in its page |
| EmittedRun.RunProgram | scripts/make_strong_packed_coo_witness_binding.py:169-202 | The whole program never gets stuck: every operand defined earlier and typed, each identifier once, results in order, counters at the closed form, earlier values kept |
| Request.AcceptedIdsDistinct | cpp/openfhe_query_runner.cpp:505-555 | The neighbouring order check makes all input ids distinct |
| Request.PrecedesIsLexicographic | cpp/openfhe_query_runner.cpp:513-526 | Identifiers are compared in dictionary order: a proper prefix first, else the first difference decides |
| Request.ParsePrivateInputs | cpp/openfhe_query_runner.cpp:505-555 | Accepts exactly nonempty, ordered, well-formed inputs and yields their ids, roles, kinds and normalised values padded with zeros |
| Request.PaddedIsResidue | cpp/openfhe_query_runner.cpp:505-555 | Every lane of a parsed vector holds the residue of its entry, and lanes beyond the entries zero |
| Request.ParsePlaintextMasks | cpp/openfhe_query_runner.cpp:743-777 | Accepts exactly ordered binary selection masks of the declared length and yields their padded packing |
| Request.EncryptInputs | cpp/openfhe_query_runner.cpp:1908-1923 | Encrypts every input under its id, refused exactly when an id repeats |
| RotationKeys.ParseRotationCatalog | cpp/openfhe_query_runner.cpp:557-585 | Accepts exactly strictly ordered catalogs with nonzero in-row indices and yields their map |
| RotationKeys.ParseExactRotationIndices | cpp/openfhe_query_runner.cpp:587-607 | Accepted indices are strictly increasing, nonzero, inside the row and pairwise distinct mod the row size |
| RotationKeys.ParseKeyGenerationPlan | cpp/openfhe_query_runner.cpp:609-741 | Accepts exactly the plans of either schema and yields their indices |
| RotationKeys.DerivedPlanIsExact | cpp/openfhe_query_runner.cpp:609-741 | An accepted derived plan lists exactly the indices of the catalog, ascending and each once, or index 1 alone for the empty catalog |
| RotationKeys.CaseIdReads | cpp/openfhe_query_runner.cpp:718-727 | The case id of an index is index= followed by digits that read as it, with a minus sign exactly below zero |
| RotationKeys.SortedUnique | cpp/openfhe_query_runner.cpp:657-663 | The expected indices are strictly increasing with exactly the catalog's members |
| RotationKeys.CatalogHasKeys | cpp/openfhe_query_runner.cpp:609-741 | Under either schema every catalog rotation has a generated key |
| RotationKeys.NoMissingKey | cpp/openfhe_query_runner.cpp:1269-1290 | No program of an accepted request fails for a missing rotation key |
| RotationKeys.UncoveredCatalogMissesKey | cpp/openfhe_query_runner.cpp:1269-1290 | Without the cover requirement a run can miss a key |
| Validator.ValidateCloudProgram | src/dynamic_cssc/cloud_execution_plan.py:297-551 | The validator, tables, loops and worklist included, accepts exactly the programs that meet the declarative rules, for the strict contract and for any set of results that must be masked |
| Validator.ValidatePublicCatalog | src/dynamic_cssc/cloud_execution_plan.py:168-184 | Accepts exactly nonzero entries without a repeated shift and yields their table |
| Validator.DeclareInputs | src/dynamic_cssc/cloud_execution_plan.py:324-337 | Accepts exactly printable, distinct inputs of a known role and the full length, and declares them |
| Validator.DeclareMasks | src/dynamic_cssc/cloud_execution_plan.py:339-356 | Accepts exactly binary selections of the full length with ids new to inputs and masks |
| Validator.CheckUses | src/dynamic_cssc/cloud_execution_plan.py:381-462 | A node's reads pass the tables exactly when they are defined before it with the roles and producers the rules ask for; the length comparisons never decide |
| Validator.ValidateNodes | src/dynamic_cssc/cloud_execution_plan.py:381-476 | The node loop accepts exactly when every node does, and counts the returns of every blinded result |
| Validator.CheckMaskSchedule | src/dynamic_cssc/cloud_execution_plan.py:490-502 | Accepts exactly when every blinded result is returned once and every F1-M operand added once |
| Validator.CheckConsumers | src/dynamic_cssc/cloud_execution_plan.py:504-531 | Accepts exactly when every input has its one consumer and every product its one relinearisation |
| Validator.LiveIds | src/dynamic_cssc/cloud_execution_plan.py:533-540 | The worklist yields the smallest set that has the sources of all returns and is closed under reading |
| Validator.CheckNothingDead | src/dynamic_cssc/cloud_execution_plan.py:541-551 | Accepts exactly when some return depends on every computation and some computation reads every operand |
| ProgramRules.AcceptedProgramRuns | src/dynamic_cssc/cloud_execution_plan.py:297-551 | An accepted program with its inputs, masks and keys runs to the end, typed, and returns exactly result_ids, if and only if it has a node and no node id exceeds 512 characters; otherwise the run fails as an empty program or on the long id |
| ProgramRules.AcceptedReturns | src/dynamic_cssc/cloud_execution_plan.py:533-551 | An accepted program returns something unless it is empty, and the empty one has no operands |
| ProgramCounts.ProductsPairRoles | src/dynamic_cssc/cloud_execution_plan.py:381-399 | In an accepted program every product reads exactly one value input and one query input, and each of those inputs is read by exactly one product |
| ProgramCounts.ProductsAreRelinearized | src/dynamic_cssc/cloud_execution_plan.py:400-408 | Every product is relinearised exactly once, and nothing else is |
| ProgramCounts.BlindingsPairOperands | src/dynamic_cssc/cloud_execution_plan.py:434-448 | Every F1-M operand is added exactly once and every addition has one such operand |
| ProgramCounts.BlindingsAreReturned | src/dynamic_cssc/cloud_execution_plan.py:449-493 | Every result that has to be blinded returns one F1-M addition, and each addition is returned exactly once |
| ProgramCounts.AcceptedCountsAgree | src/dynamic_cssc/cloud_execution_plan.py:297-551 | An accepted program has as many value inputs as query inputs as products as relinearisations, and as many F1-M operands as additions as blinded results |
| UnmaskedResults.ThreeEndingsAdmitted | src/dynamic_cssc/cloud_execution_plan.py:445-472 | Where no result has to be blinded, one program that returns a relinearised product, a selection and a sum is admitted |
| ValidatedSession.SessionSupports | cpp/openfhe_query_runner.cpp:1817-1923 | The tables of a parsed request supply the inputs, masks and keys of the accepted program it carries |
| ValidatedSession.ValidatedSessionOutcome | cpp/openfhe_query_runner.cpp:1817-1977 | The session of a parsed request with an accepted program ends in its results or in the escape check, except that an id too long for the runner fails it |
| ValidatedSession.StrictReturnsAreBlinded | src/dynamic_cssc/cloud_execution_plan.py:445-472 | Under the strict rules every return has an F1-M addition as its source |
| ValidatedSession.BlindedRotationAccepted | src/dynamic_cssc/cloud_execution_plan.py:297-551 | The strict rules accept a blinded, unselected rotation of a product, for every catalog with a rotation |
| ValidatedSession.BlindedRotationEscapes | cpp/openfhe_query_runner.cpp:1939-1977 | For every accepted catalog and plan with a rotation and fewer lanes than the row, the session of that program escapes |
| ValidatedSession.ValidatedEscapeIsPossibleIff | cpp/openfhe_query_runner.cpp:1939-1977 | Restricted to programs the strict validator accepts, an escape is possible if and only if p >= 2, slot_count is below the row and the catalog is nonempty |
| BuiltRequest.CanonicalAccepted | src/dynamic_cssc/cloud_execution_plan.py:616-649 | Sorting inputs, masks and catalog keeps a program accepted and leaves their keys strictly ascending |
| BuiltRequest.StrictIsCanonical | src/dynamic_cssc/cloud_execution_plan.py:607-623 | A strictly accepted program has all its results masked and is accepted again when it is serialised |
| BuiltRequest.MaskedResultsAreForced | src/dynamic_cssc/cloud_execution_plan.py:607-623 | The set of results the client asks to be masked is the only one for which the rules can admit the program |
| ClientPlan.StrictIndicesAgree | src/dynamic_cssc/openfhe_query_runner.py:317-329 | The client's index check, by sorting and counting residues, accepts exactly the lists the runner's check accepts |
| ClientPlan.DerivedPlanConstructsIff | src/dynamic_cssc/openfhe_query_runner.py:413-434 | The client constructs the plan of a catalog exactly when every rotation is nonzero and inside the row and different ones differ modulo the row |
| ClientPlan.ClientPlanPasses | cpp/openfhe_query_runner.cpp:609-741 | Every key plan the client takes, derived or handed in, passes the runner's check, whatever the catalog |
| BuiltRequest.BuildRequest | src/dynamic_cssc/openfhe_query_runner.py:618-680 | The builder refuses exactly vectors that do not cover the inputs with the right length and kind, another modulus, too many slots, a program the rules refuse, or a key plan that cannot be constructed, does not cover the catalog, or claims to be derived and is not; otherwise it yields the canonical request with that plan |
| BuiltRequest.RequestCarriesView | src/dynamic_cssc/openfhe_query_runner.py:618-680 | A built request holds the program unchanged, and its operands with the vectors and kinds prepared for them, its masks and its catalog, all of them and nothing else, in ascending order |
| BuiltRequest.BuiltRequestParses | cpp/openfhe_query_runner.cpp:1817-1923 | Of a request built from a prepared view the runner never refuses the key plan, and it parses the request if and only if the slots fit the row, there is an input, ids have at most 512 characters, values, query entries and shifts fit 64 bits, and every rotation is below slot_count |
| BuiltRequest.BuiltSessionOutcome | src/dynamic_cssc/openfhe_query_runner.py:618-680 | The session of a built request ends in its results or in the escape check if and only if the runner parses it and no node id is too long |
| BuiltRequest.EmptyProgramIsRefused | src/dynamic_cssc/cloud_execution_plan.py:291-294 | The empty program is accepted and its request built; the runner's parser refuses the request for its private inputs, and its program loop would refuse the program |
| EmittedAccepted.EmittedIsAccepted | scripts/make_strong_packed_coo_witness_binding.py:169-202 | The emitted program with its operands passes the strict rules for any components and ascending rotations |
| PlacementSession.PlacementBuildable | src/dynamic_cssc/openfhe_query_runner.py:618-680 | For every well-placed, well-named choice of components, any number of declared lanes up to the row, and the derived key plan or any other the client takes, the client builds the request |
| PlacementSession.PlacementServes | cpp/openfhe_query_runner.cpp:1817-1923 | With 64-bit entries that request parses and carries the placed vectors, the segment starts, the ladder and the emitted program |
| RowConfinement.RunKeepsSecondRow | cpp/openfhe_query_runner.cpp:1226-1342 | Every accepted program keeps the second batch row zero in every value |
| RowConfinement.RunKeepsCanonical | cpp/openfhe_query_runner.cpp:1226-1342 | Every value of a run keeps the batch shape and residues as lanes |
| RowConfinement.RunConfinesClean | cpp/openfhe_query_runner.cpp:1226-1342 | Values built without spilling rotations, or masked after them, stay inside the declared lanes |
| RowConfinement.BlindedReturnsAreClean | cpp/openfhe_query_runner.cpp:1291-1339 | Returned blinded selections are among those values |
| RowConfinement.RunReturns | cpp/openfhe_query_runner.cpp:1331-1341 | The returned list is the result ids of the return nodes in order |
| RowConfinement.ParsedRequestStartsConfined | cpp/openfhe_query_runner.cpp:505-555 | Parsed and encrypted inputs and masks start inside the declared lanes |
| RowConfinement.FullRowNeverEscapes | cpp/openfhe_query_runner.cpp:1939-1977 | With slot_count equal to the row the escape check never fires, for any program |
| RowConfinement.BlindedSelectionsNeverEscape | cpp/openfhe_query_runner.cpp:1939-1977 | With a smaller slot_count it never fires for programs that return blinded selections, although rotations spill |
| RowConfinement.DecryptResults | cpp/openfhe_query_runner.cpp:1939-1977 | The decrypt loop yields the declared lanes of every result and its flag is true exactly when nothing lies beyond them |
| Escape.RunWithoutRotations | cpp/openfhe_query_runner.cpp:1226-1342 | Without a rotation in the catalog every value of a run stays inside the declared lanes |
| Escape.EscapeNeedsRotation | cpp/openfhe_query_runner.cpp:1939-1977 | A session escapes only with p >= 2, fewer declared lanes than the row, and a rotation in the catalog |
| Escape.BareRotationEscapes | cpp/openfhe_query_runner.cpp:1939-1977 | For every accepted catalog with a rotation and every accepted plan, an accepted request with fewer lanes than the row runs and escapes |
| Escape.EscapeIsPossibleIff | cpp/openfhe_query_runner.cpp:1939-1977 | For every accepted geometry, catalog and plan: some accepted request escapes if and only if p >= 2, slot_count is below the row and the catalog is nonempty |
| Producer.ValidateProgramInputs | cpp/openfhe_query_runner.cpp:779-798 | Declared inputs are accepted exactly when they match the private ones in order |
| Producer.Prepare | cpp/openfhe_query_runner.cpp:1817-1923 | The first failing request check decides the fault; without one, the tables are those the request defines, and the refusal of a repeated input id is never reached |
| Producer.RunProducer | cpp/openfhe_query_runner.cpp:1817-1977 | The session is exactly the specified result: which requests succeed, with which lanes in result_ids order, and the cause of every fault |
| Session.SessionStartsPrepared | cpp/openfhe_query_runner.cpp:1817-1923 | An accepted request starts from checked rotations and keys and from inputs and masks traced to their raw form |
| Session.PreparedRun | cpp/openfhe_query_runner.cpp:1925-1977 | A prepared run misses no key, keeps canonical values, returns distinct defined ids, and is confined for full rows and blinded selections |
| Session.SessionOutcome | cpp/openfhe_query_runner.cpp:1817-1977 | No session misses a key, repeats an input or meets an undefined result; an escape needs a short row and an unblinded return; success holds exactly when every check, the run, the result ids and confinement do |
| Session.CauseOfRefusal | cpp/openfhe_query_runner.cpp:1817-1923 | Each of the six causes of a refused request is given exactly when its check fails and those before it pass, whatever the later ones do |
| Session.CauseOfFailedRun | cpp/openfhe_query_runner.cpp:1925-1977 | Each later cause is given exactly when the checks pass and that part of the run, the result ids, their order or confinement fails |
| Session.EmittedReturnsBlinded | scripts/make_strong_packed_coo_witness_binding.py:129-202 | The emitted program returns only blinded selections |
| Session.EmittedNeverEscapes | scripts/make_strong_packed_coo_witness_binding.py:129-202 | A session with an emitted program and its F1-M inputs never trips the escape check, for any slot_count |
| ReplayPackage.KeyInjective | cpp/openfhe_query_runner.cpp:1072-1100 | The joined role and subject key determines both for printable ids |
| ReplayPackage.ReadPackage | cpp/openfhe_query_runner.cpp:1066-1104 | A package is read exactly when nonempty, printable and without a repeated member |
| ReplayPackage.CountRoles | cpp/openfhe_query_runner.cpp:2102-2109 | The tally is refused exactly on an unknown role and counts every role |
| ReplayPackage.CheckReplay | cpp/openfhe_query_runner.cpp:2086-2114 | The replay's role, subject and cardinality checks, together |
| ReplayPackage.SubjectsAreIds | cpp/openfhe_query_runner.cpp:2214-2225 | Equal cardinality and coverage make the subjects of a role exactly the ids |
| ReplayPackage.AcceptedPackageIsExact | cpp/openfhe_query_runner.cpp:2086-2286 | An accepted package holds exactly the declared inputs and results and has 14 + inputs + results members |
| ReplayPackage.ReturnedDistinct | cpp/openfhe_query_runner.cpp:1326-1342 | Returned ids of a successful run are pairwise distinct |
| ReplayPackage.AcceptedReplayIsExact | cpp/openfhe_query_runner.cpp:2214-2286 | The same for a whole replay, the distinctness of ids derived from parsing and running |
| KeyFrame.AppendUint64BigEndian | cpp/openfhe_query_runner.cpp:837-841 | The shift loop appends the eight-byte big-endian form |
| KeyFrame.ReadUint64BigEndian | cpp/openfhe_query_runner.cpp:905-915 | Refused exactly when fewer than eight bytes remain, else the value of those bytes, without underflow |
| KeyFrame.BuildCombinedEvaluationKeyFrame | cpp/openfhe_query_runner.cpp:886-903 | Refused exactly for an empty segment, else the frame of both segments |
| KeyFrame.FrameLayout | cpp/openfhe_query_runner.cpp:886-903 | The offset and content of every field of a frame, the lengths most significant byte first |
| KeyFrame.ParseCombinedEvaluationKeyFrame | cpp/openfhe_query_runner.cpp:917-942 | Accepts exactly frames whose lengths, digests and end agree and yields their segments |
| KeyFrame.ParseOfBuild | cpp/openfhe_query_runner.cpp:886-942 | Parsing a built frame gives back its segments |
| KeyFrame.BuildOfParse | cpp/openfhe_query_runner.cpp:886-942 | Building from an accepted frame's segments gives back the frame |
| KeyFrame.FrameInjective | cpp/openfhe_query_runner.cpp:886-903 | Equal frames have equal segments |
| Sampling.ReadOsRandomMod | cpp/strong_packed_coo_witness.cpp:200-211 | Returns the residue of the first word below the cutoff, or fails when the words run out |
| Sampling.ReadNonzeroMask | cpp/strong_whole_query_witness.cpp:121-136 | Returns the first accepted nonzero residue |
| Sampling.FillRandomResidues | cpp/microbench.cpp:581-590 | Succeeds exactly when at least as many words as elements are accepted; element i is the residue of the accepted word with i accepted words before it |
| Sampling.DrawIsUnique | cpp/microbench.cpp:581-590 | That determines the element |
| Sampling.CutoffIsExact | cpp/strong_packed_coo_witness.cpp:200-211 | For every modulus each residue has the same number of accepted words below the cutoff |
| Sampling.NonzeroIsExact | cpp/strong_whole_query_witness.cpp:121-136 | The nonzero variant is even over 1..p-1 |
| Sampling.ThresholdIsExact | cpp/microbench.cpp:581-590 | For every modulus each residue has the same number of accepted words at or above the threshold |
| QuerySchedule.InsertQueriesIntoEvents | scripts/run_day1_suite.py:480-492 | Refused exactly for a negative rate or a stream with queries, else the running-remainder schedule |
| QuerySchedule.RunningIsClosed | scripts/run_day1_suite.py:480-492 | The running remainder and the queries due have a closed form at every SET |
| QuerySchedule.ScheduleIsExact | scripts/run_day1_suite.py:480-492 | For every rate, stream and cut: floor(N rho) queries after the Nth SET, and removing them returns the input |
| QueryTimes.EventTimes | scripts/run_day1_suite.py:480-492 | In every schedule a query has the timestamp of the event before it, and none is first |
| QuerySchedule.InsertQueriesIntoPublication | scripts/run_day1_suite.py:494-555 | Accepts exactly well-ordered groups and yields the closed-form publication schedule |
| QuerySchedule.PublicationIsExact | scripts/run_day1_suite.py:494-555 | At every cut after k groups: the schedule so far is a prefix of the whole, keeps every change, drops only clipped no-ops, and holds k ticks and floor(k rho) queries |
| QuerySchedule.PublicationOrder | scripts/run_day1_suite.py:494-555 | At every position of the schedule: before any event but a query the queries are exactly those due after the ticks so far, and before a tick the changes are those up to its group |
| QueryTimes.PublicationTimes | scripts/run_day1_suite.py:494-555 | In every accepted publication a query has the timestamp of the event before it, the k-th tick has ordinal over denominator of the k-th group, and the changes are those of the effective transitions at their own times |
| QueryTimes.PublicationAccepts | scripts/run_day1_suite.py:504-533 | A publication is accepted exactly when the transitions meet the stream rules at every position |
| QuerySchedule.FormsAgree | scripts/run_day1_suite.py:451-555 | After the same number of accepted events, wherever the streams are cut, both forms have emitted floor(k rho) queries |
| QuerySchedule.IntegerRateRepeats | scripts/run_day1_suite.py:480-492 | The rate-k schedule is the rate-one schedule with every query repeated k times |
| QueryScaling.QueryScaledWindows | scripts/run_day1_suite.py:382-393 | Refuses a multiplier below one and decides whether the windows differ exactly by query counts multiplied by it |
| QueryScaling.ScaleDistributes | scripts/run_day1_suite.py:395-419 | Scaling distributes over adding window costs |
| QueryScaling.ScalingIsReplay | scripts/run_day1_suite.py:345-419 | For any cost whose listed fields and rotation counts are query count times a rate of state and content and whose rest is independent of queries: the replay of k-fold queries has k times the unit value in each listed field and rotation count and the same value elsewhere, which is the scaled unit result |
| MaskLeaders.CompressMask | scripts/make_strong_packed_coo_witness_binding.py:241-256 | Yields the positions of the ones, refused exactly when they do not reconstruct the mask |
| MaskLeaders.ReconstructMask | scripts/validate_strong_packed_coo_witness.py:190-222 | Accepts exactly strictly increasing positions in range and yields their mask |
| MaskLeaders.LeadersAre | scripts/make_strong_packed_coo_witness_binding.py:241-246 | Leaders are strictly increasing and exactly the positions of ones |
| MaskLeaders.DecodeOfLeaders | scripts/validate_strong_packed_coo_witness.py:190-222 | Every binary mask is recovered from its leaders |
| MaskLeaders.LeadersOfDecode | scripts/validate_strong_packed_coo_witness.py:190-222 | Every accepted leader list is recovered from the mask it decodes to |
| LabelRotation.IsFrozenLabelPermutation | cpp/rotation_probe.cpp:56-74 | True exactly for permutations of 0..n-1 |
| LabelRotation.DistinctIsOnto | cpp/rotation_probe.cpp:56-74 | Distinct labels in range leave none out |
| LabelRotation.ProbeFormula | cpp/microbench.cpp:279-289 | The slot-by-slot formula is the rotation inside each row |
| LabelRotation.IsExactFrozenLabelRotation | cpp/microbench.cpp:262-295 | True exactly for the in-row rotation of the labels by a nonzero in-row index |
| LabelRotation.RotationsCompose | cpp/microbench.cpp:262-295 | Rotating a row twice is rotating it by the sum |
| LabelRotation.RotationIsPeriodic | cpp/microbench.cpp:279-281 | Rotation depends on the index only modulo the row size |
| LabelRotation.LabelsCompose | cpp/microbench.cpp:262-295 | Rotated labels compose by adding indices modulo the row size |
| LabelRotation.AcceptedRotationsCompose | cpp/microbench.cpp:262-295 | Composed accepted vectors are accepted at the summed index, or the identity when it vanishes |
| LabelRotation.AcceptedRotationIsPermutation | cpp/microbench.cpp:262-295 | Every accepted rotation is a permutation |
| CellPaths.TokenInjective | scripts/run_day1_suite.py:587-591 | The path token determines the fraction |
| CellPaths.TokenReads | scripts/run_day1_suite.py:587-591 | The digits between n and d read as the numerator and those after d as the denominator, and as no other fraction |
| CellPaths.CellPathReads | scripts/aggregate_day1_shards.py:312-328 | The path is the workload, the freshness with its unit and rho, in that order, each fraction by a token that reads as it |
| CellPaths.CellPathInjective | scripts/aggregate_day1_shards.py:312-328 | For slash-free workload names, equal cell paths mean equal cells, up to the two names that add no segment |
| CellPaths.UnnamedWorkloadsCollide | scripts/aggregate_day1_shards.py:312-328 | The two names that coincide |
| CellPaths.AggregateShards | scripts/aggregate_day1_shards.py:604-633 | Succeeds exactly when the shards tile the plan and the final count and uniqueness check holds |
| CellPaths.CellPlace | scripts/aggregate_day1_shards.py:630-631 | Cell j of shard i of the aggregated list is the cell of its workload, its freshness and the j-th ratio |
| CellPaths.CellsDistinct | scripts/aggregate_day1_shards.py:630-633 | Cells of shards with distinct keys never coincide |
| CellPaths.FinalCheckCannotFail | scripts/aggregate_day1_shards.py:604-633 | For any duplicate-free plan, shards that tile it pass the final check |

## Left out

- Lattice arithmetic, noise growth, key generation and serialisation of the encryption library: the slot-vector model above stands for them.
- SHA-256, digests and canonical JSON: a hash is an arbitrary function with 32-byte results in `KeyFrame`; digest and byte-count checks of packages are not modelled.
- The file system, control descriptors, subprocesses, timing, receipts and report writers.
- JSON shape and key-set checks: typed records stand for parsed JSON; booleans and mixed types in number positions are refused before the model starts.
- The mask ledger and its SQLite commitment state machine, and the delta compiler and simulator under `src/dynamic_cssc`, except the mask preparation of the output plan, the program validator and the request builder.
- Word width of the client's additions: every intermediate value there is below twice the modulus, so it fits 64 bits for the moduli used; the samplers, the frame lengths, 64-bit JSON integers and 32-bit rotation indices are bounded explicitly.
- The encrypt and decrypt counters, which the runner increments outside the program loop.
- Pipeline.RunWitness: decryption always succeeds, so the skip of a component whose decryption is invalid and the witness's other pass flags are not modelled.
- Pipeline.MergeComponent: the same skip is left out.
- PackedComponent.EvaluateComponent: the trace is a node list; its JSON field layout is not modelled.
- RotationKeys.ParseKeyGenerationPlan: digest, authority and source comparisons of the plan are boolean fields of it.
- RotationKeys.UncoveredCatalogMissesKey: its environment is one no request check accepts; it shows what the cover requirement is for.
- F1MMasks.ValidatePlan: shares are numbered in the order of their ids, which the source reaches by sorting.
- F1MMasks.PrepareF1MMasks: query and version ids, the plan digest in the bindings and the ledger reservation are not part of it; contributors are collected per coordinate by a function instead of a dictionary.
- ReplayPackage.ReadPackage: byte counts, member paths, digests, the physical directory and the case and lane bindings are not modelled.
- WholeTrace.WholeTraceReplays: result ids that begin the way a trace label does are outside it; they could collide with a label.
- Validator.ValidateCloudProgram: refusals are one outcome without their messages; type checks and booleans in number positions are part of the typed records.
- EmittedAccepted.EmittedIsAccepted: component names leave every identifier within the runner's 512 characters; the validator itself has no such bound.
- BuiltRequest.BuildRequest: bindings, digests and the OpenFHE profile beyond its modulus, row and batch are not part of the request; a view is any program with vectors, where the public entry points pass only views of compiled queries, and the compiler is not modelled.
- BuiltRequest.BuiltRequestParses: of the preparation checks only the kind and the residues of F1-M operands are used; the modulus fits a signed 64-bit word, as the library's plaintext modulus does.
- LogicalMatrix.IndependentSpmv: Python's negative indices are outside it; rows and columns are natural numbers, as the inputs guarantee.
- QuerySchedule.InsertQueriesIntoEvents: timestamps are exact reals, where the script carries floats and fractions; their values are copied, never compared.
- KeyFrame.BuildCombinedEvaluationKeyFrame: frames of 2^64 bytes or more are not considered.
- QueryScaling.ScalingIsReplay: the simulator is any step function whose cost is linear in the query count in the sense the hypothesis spells out; that the repository's simulator is one is not shown.
- CellPaths.CellPathInjective: a freshness of zero, which the script refuses, is covered too; fractions are pairs taken as already reduced, as `Fraction` keeps them; workload names with a slash are outside it.
- CellPaths.AggregateShards: of a shard only its identity and cell paths are modelled, not its checksums, receipts and metrics.
- The fixed constants of the witnesses (two components, 128-lane segments, 4096-lane rows, their expected results) are instances of the parameters, among them the fixed mask pairs of `MakeF1MMasks`.
