# A verified model of twelve Kratos Multiphysics routines

This project models, in Dafny, a set of time-integration, mesh-update and bookkeeping routines of the Kratos Multiphysics finite-element framework, and proves what they compute. Constraints and normals are the main bookkeeping concerns. Each Dafny module follows one source file:

| module | source | what it models |
|---|---|---|
| `BdfDisplacementScheme` | `kratos/solving_strategies/schemes/residual_based_bdf_displacement_scheme.h` | the BDF scheme whose unknown is the displacement: DoF fixing, the predictor and the velocity and acceleration recurrences |
| `StructuralMeshMovingStrategy` | `applications/ALEapplication/custom_strategies/strategies/structural_meshmoving_strategy.h` | the ALE mesh-moving strategy: reset, mesh velocity by backward differences, mesh motion |
| `ChimeraProcess` (with `ChimeraCoupling`, `ChimeraConservative`, `ChimeraCorrection`, `ChimeraNormals`, `ChimeraLevels`, `MpcConstraints`) | `applications/ChimeraApplication/custom_processes/apply_chimera_process_FractionalStep.h` | the overlapping-mesh (Chimera) coupling: the level loop, interpolation constraints, the "all"/"one" pressure coupling, the conservative zero-flux correction and the nodal normals and masses |
| `NormalCalculationUtils` | `kratos/utilities/normal_calculation_utils.cpp` | nodal normals from condition normals, swapping, unit normals |
| `GeometryUtilities` | `applications/ShapeOptimizationApplication/custom_utilities/geometry_utilities.h` | area and unit surface normals, projection onto them, surface-node extraction |
| `EigenfrequencyResponseFunctionUtility` | `applications/StructuralMechanicsApplication/custom_response_functions/response_utilities/eigenfrequency_response_function_utility.h` | traced eigenfrequencies, their weights, the response value and the eigenvector gather |
| `RefineMeshElementsOnThresholdProcess` | `applications/DelaunayMeshingApplication/custom_processes/refine_mesh_elements_on_threshold_process.hpp` | TO_REFINE on the nodes of elements over a threshold |
| `AssignNodalElementsToNodes` | `applications/StructuralMechanicsApplication/custom_processes/assign_nodal_elements_to_nodes.cpp` | parameter defaults, created properties, renumbering and the activation interval |
| `AdjointFiniteDifferenceNodalConcentratedElement` | `applications/StructuralMechanicsApplication/custom_response_functions/adjoint_elements/adjoint_finite_difference_nodal_concentrated_element.cpp` | the sensitivity matrices, extension getters and check of the adjoint nodal element |
| `AitkenRelaxationUtility` | `applications/FemToDemApplication/custom_utilities/aitken_relaxation_utility.hpp` | the iteration counter and the residual swap |
| `KratosSolverWrapper` | `applications/MultilevelMonteCarloApplication/external_libraries/XMC/xmc/classDefs_solverWrapper/KratosSolverWrapper.py` | constructor defaults, the output batch split, the serialize dispatch, the levels run |
| `TauFunctions` | `applications/CoSimulationApplication/python_scripts/helpers/tau_functions.py` | the interface file search and the data-line count |

`Vectors` (3-vectors over the reals) and `Wrappers` (`Option`, `Result`, `Outcome`) are shared helpers.

Conventions of the model:

- Floating-point values are `real`.
- `sqrt`, `norm_2` and `Norm3` are function parameters about which only what a lemma needs is assumed, in its `requires`.
- A `KRATOS_ERROR`, a thrown exception or a Python `raise` becomes an `Err` result or a `Raised` outcome, and the contract says what was already changed when it happened.
- Objects whose fields the source updates in place are classes with `modifies` clauses. Each method is specified by a function of the old state, and lemmas about those functions state what the source promises.
- Solution-step buffers are sequences indexed by step: index 0 is the current step.
- A loop that OpenMP runs in parallel is modelled as the sequential loop.

## Model

| member | source | states |
|---|---|---|
| `BdfDisplacementScheme.FindDof` | kratos/solving_strategies/schemes/residual_based_bdf_displacement_scheme.h:171-176 | the DoF position of a variable is -1 or a position in the node's DoF list holding that variable |
| `BdfDisplacementScheme.FindDofComplete` | kratos/solving_strategies/schemes/residual_based_bdf_displacement_scheme.h:171-176 | HasDofFor holds for every variable the node carries |
| `BdfDisplacementScheme.FindDofReadsVariables` | kratos/solving_strategies/schemes/residual_based_bdf_displacement_scheme.h:171-176 | the position depends only on the variables of the DoF list, not on the fixity flags |
| `BdfDisplacementScheme.FindDofAppend` | kratos/solving_strategies/schemes/residual_based_bdf_displacement_scheme.h:190 | appending a DoF of another variable does not move a variable's position |
| `BdfDisplacementScheme.FindDofAppendNew` | kratos/solving_strategies/schemes/residual_based_bdf_displacement_scheme.h:190 | a DoF added for a missing variable is found where it was appended |
| `BdfDisplacementScheme.HintIsIrrelevant` | kratos/solving_strategies/schemes/residual_based_bdf_displacement_scheme.h:189 | with one DoF per variable, GetDof(variable, position) reads the same flag whatever position is passed |
| `BdfDisplacementScheme.Fix` | kratos/solving_strategies/schemes/residual_based_bdf_displacement_scheme.h:190 | Node::Fix leaves the variable fixed, keeps every existing variable in place, changes only that variable's DoF and only appends DoFs of that variable |
| `BdfDisplacementScheme.FixKeepsOtherFlags` | kratos/solving_strategies/schemes/residual_based_bdf_displacement_scheme.h:190 | fixing one variable leaves the flag of every other variable as it was |
| `BdfDisplacementScheme.LayoutOf` | kratos/solving_strategies/schemes/residual_based_bdf_displacement_scheme.h:254-262 | each position is > -1 exactly when the first node has a DoF for that variable |
| `BdfDisplacementScheme.FixAxis` | kratos/solving_strategies/schemes/residual_based_bdf_displacement_scheme.h:188-197 | after one axis the displacement is fixed exactly when it was, or the acceleration is fixed, or the velocity is fixed; the other axes and the flags read later are unchanged; no flag is unset |
| `BdfDisplacementScheme.FixAxes` | kratos/solving_strategies/schemes/residual_based_bdf_displacement_scheme.h:186-219 | the first n axes of the node body change no nodal value |
| `BdfDisplacementScheme.FixAxesKeepsReadFlags` | kratos/solving_strategies/schemes/residual_based_bdf_displacement_scheme.h:186-219 | the axes done so far leave the velocity and acceleration flags that the later axes test as they were |
| `BdfDisplacementScheme.FixAxesIsMonotone` | kratos/solving_strategies/schemes/residual_based_bdf_displacement_scheme.h:186-219 | the node body removes no DoF and unsets no flag |
| `BdfDisplacementScheme.FixAxesFixesDisplacements` | kratos/solving_strategies/schemes/residual_based_bdf_displacement_scheme.h:186-219 | after n axes, the displacement of an axis below n is fixed exactly when it was, or its acceleration or velocity is fixed; later axes are untouched |
| `BdfDisplacementScheme.FixNodeFixesDisplacements` | kratos/solving_strategies/schemes/residual_based_bdf_displacement_scheme.h:180-222 | after InitializeSolutionStep a displacement DoF is fixed exactly when it was, or its acceleration or velocity DoF is fixed; no DoF is unfixed |
| `BdfDisplacementScheme.RecurrenceAt` | kratos/solving_strategies/schemes/residual_based_bdf_displacement_scheme.h:471-477 | component c of the BDF recurrence is bdf[0]·h[0][c] plus the history sum over steps 1..order |
| `BdfDisplacementScheme.PastSumIgnoresCurrent` | kratos/solving_strategies/schemes/residual_based_bdf_displacement_scheme.h:286-289 | the history sum reads only steps 1..order |
| `BdfDisplacementScheme.InverseSolves` | kratos/solving_strategies/schemes/residual_based_bdf_displacement_scheme.h:286-289 | subtracting the history and dividing by bdf[0] solves bdf[0]·x + history = y |
| `BdfDisplacementScheme.SetCurrent` | kratos/solving_strategies/schemes/residual_based_bdf_displacement_scheme.h:285 | writing one component of buffer 0 keeps the past steps and the other components |
| `BdfDisplacementScheme.BufferEquality` | kratos/solving_strategies/schemes/residual_based_bdf_displacement_scheme.h:283-369 | two buffers with the same past and the same buffer 0 are equal |
| `BdfDisplacementScheme.RecurrenceInverts` | kratos/solving_strategies/schemes/residual_based_bdf_displacement_scheme.h:283-303 | round trip: after the inversion loop writes x into buffer 0, the recurrence applied to the buffer gives back y |
| `BdfDisplacementScheme.PredictAxis` | kratos/solving_strategies/schemes/residual_based_bdf_displacement_scheme.h:283-310 | one axis writes the predicted displacement and velocity into buffer 0 and changes nothing else |
| `BdfDisplacementScheme.PredictAxes` | kratos/solving_strategies/schemes/residual_based_bdf_displacement_scheme.h:283-369 | the three axes keep the DoFs, the accelerations and the past steps |
| `BdfDisplacementScheme.PredictAxesAt` | kratos/solving_strategies/schemes/residual_based_bdf_displacement_scheme.h:283-369 | after the three axes, component c of buffer 0 holds the predicted displacement and velocity of axis c |
| `BdfDisplacementScheme.VelocityUpdate` | kratos/solving_strategies/schemes/residual_based_bdf_displacement_scheme.h:471-477 | UpdateFirstDerivative changes only the current velocity |
| `BdfDisplacementScheme.AccelerationUpdate` | kratos/solving_strategies/schemes/residual_based_bdf_displacement_scheme.h:483-489 | UpdateSecondDerivative changes only the current acceleration |
| `BdfDisplacementScheme.PredictStep` | kratos/solving_strategies/schemes/residual_based_bdf_displacement_scheme.h:283-373 | each of the five steps of the node body keeps the DoFs and the buffer sizes |
| `BdfDisplacementScheme.PredictSteps` | kratos/solving_strategies/schemes/residual_based_bdf_displacement_scheme.h:283-373 | any prefix of the node body keeps the DoFs and the buffer sizes |
| `BdfDisplacementScheme.PredictNode` | kratos/solving_strategies/schemes/residual_based_bdf_displacement_scheme.h:268-374 | the whole node body keeps the DoFs and the buffer sizes |
| `BdfDisplacementScheme.SolvedCurrentIgnoresCurrent` | kratos/solving_strategies/schemes/residual_based_bdf_displacement_scheme.h:286-294 | the inverted value depends on the past steps only |
| `BdfDisplacementScheme.AxisReadsItsOwnValues` | kratos/solving_strategies/schemes/residual_based_bdf_displacement_scheme.h:283-369 | an axis's prediction does not read other axes' components of buffer 0, so the axes do not interfere |
| `BdfDisplacementScheme.AxisStepsInSequence` | kratos/solving_strategies/schemes/residual_based_bdf_displacement_scheme.h:283-369 | running X, then Y, then Z gives the same node as predicting each axis from the original values |
| `BdfDisplacementScheme.PredictNodeInStages` | kratos/solving_strategies/schemes/residual_based_bdf_displacement_scheme.h:268-374 | the node body is the three axis predictions followed by UpdateFirstDerivative and UpdateSecondDerivative |
| `BdfDisplacementScheme.PredictKeepsFixedVelocity` | kratos/solving_strategies/schemes/residual_based_bdf_displacement_scheme.h:297-305 | on an axis whose velocity is fixed (and acceleration not), the velocity after Predict is the prescribed one |
| `BdfDisplacementScheme.PredictKeepsFixedAcceleration` | kratos/solving_strategies/schemes/residual_based_bdf_displacement_scheme.h:283-295 | on an axis whose acceleration is fixed, the acceleration after Predict is the prescribed one |
| `BdfDisplacementScheme.PredictNodeDisplacement` | kratos/solving_strategies/schemes/residual_based_bdf_displacement_scheme.h:283-373 | after Predict buffer 0 holds the predicted displacement of every axis; the derivative updates do not touch it |
| `BdfDisplacementScheme.PredictFreeDisplacement` | kratos/solving_strategies/schemes/residual_based_bdf_displacement_scheme.h:306-310 | a free displacement is predicted as u1 + dt·v1 + dt²/2·a1 |
| `BdfDisplacementScheme.PredictKeptDisplacement` | kratos/solving_strategies/schemes/residual_based_bdf_displacement_scheme.h:306-310 | a displacement that is fixed, or whose DoF the first node lacks, keeps its value |
| `BdfDisplacementScheme.ZAccelerationHint` | kratos/solving_strategies/schemes/residual_based_bdf_displacement_scheme.h:343 | when DoF variables are unique, reading the Z acceleration flag at position accelpos_x + 2 reads ACCELERATION_Z's own flag |
| `BdfDisplacementScheme.Check` | kratos/solving_strategies/schemes/residual_based_bdf_displacement_scheme.h:387-414 | a non-zero error of the base check is returned unchanged; otherwise the result is 0 exactly when every node holds DISPLACEMENT, VELOCITY and ACCELERATION in its nodal data and has the three displacement DoFs, and an error otherwise |
| `BdfDisplacementScheme.Scheme.constructor` | kratos/solving_strategies/schemes/residual_based_bdf_displacement_scheme.h:115-118 | the order is the argument (2 by default) and there are order + 1 coefficients |
| `BdfDisplacementScheme.Scheme.FromParameters` | kratos/solving_strategies/schemes/residual_based_bdf_displacement_scheme.h:99-108 | "integration_order" when present, 2 otherwise |
| `BdfDisplacementScheme.Scheme.InitializeSolutionStep` | kratos/solving_strategies/schemes/residual_based_bdf_displacement_scheme.h:155-224 | the coefficients are this step's and every node is FixNode of its old value under the first node's layout |
| `BdfDisplacementScheme.Scheme.UpdateFirstDerivative` | kratos/solving_strategies/schemes/residual_based_bdf_displacement_scheme.h:471-477 | the result is VelocityUpdate of the node |
| `BdfDisplacementScheme.Scheme.UpdateSecondDerivative` | kratos/solving_strategies/schemes/residual_based_bdf_displacement_scheme.h:483-489 | the result is AccelerationUpdate of the node |
| `BdfDisplacementScheme.Scheme.AccumulateRecurrence` | kratos/solving_strategies/schemes/residual_based_bdf_displacement_scheme.h:474-476 | the accumulation loop computes the BDF recurrence of the history |
| `BdfDisplacementScheme.Scheme.InvertRecurrence` | kratos/solving_strategies/schemes/residual_based_bdf_displacement_scheme.h:286-289 | the subtraction loop and the division compute the inverse of the recurrence |
| `BdfDisplacementScheme.Scheme.PredictAxisStep` | kratos/solving_strategies/schemes/residual_based_bdf_displacement_scheme.h:283-310 | one axis computes PredictAxis |
| `BdfDisplacementScheme.Scheme.PredictOneNode` | kratos/solving_strategies/schemes/residual_based_bdf_displacement_scheme.h:268-374 | the node body computes PredictNode |
| `BdfDisplacementScheme.Scheme.Predict` | kratos/solving_strategies/schemes/residual_based_bdf_displacement_scheme.h:235-377 | every node becomes PredictNode of its old value with the first node's layout and DELTA_TIME |
| `BdfDisplacementScheme.Scheme.PredictNodes` | kratos/solving_strategies/schemes/residual_based_bdf_displacement_scheme.h:268-374 | the node loop applies PredictNode to every node and changes nothing else |
| `StructuralMeshMovingStrategy.EffectiveDeltaTime` | applications/ALEapplication/custom_strategies/strategies/structural_meshmoving_strategy.h:194-198 | a non-positive DELTA_TIME is negated: the step used is ±DELTA_TIME, and positive when DELTA_TIME is nonzero |
| `StructuralMeshMovingStrategy.HistoryLength` | applications/ALEapplication/custom_strategies/strategies/structural_meshmoving_strategy.h:202-228 | the velocity formula reads at least two steps of MESH_DISPLACEMENT (three for order 2) |
| `StructuralMeshMovingStrategy.MeshVelocityIgnoresSign` | applications/ALEapplication/custom_strategies/strategies/structural_meshmoving_strategy.h:194-201 | Δt and −Δt give the same mesh velocity |
| `StructuralMeshMovingStrategy.FirstOrderIsExact` | applications/ALEapplication/custom_strategies/strategies/structural_meshmoving_strategy.h:202-213 | order 1 on a history advancing by s per step yields s/Δt |
| `StructuralMeshMovingStrategy.SecondOrderComponent` | applications/ALEapplication/custom_strategies/strategies/structural_meshmoving_strategy.h:216-226 | one component of (1.5 d0 − 2 d1 + 0.5 d2)·c on a history advancing by s gives c·s |
| `StructuralMeshMovingStrategy.SecondOrderIsExact` | applications/ALEapplication/custom_strategies/strategies/structural_meshmoving_strategy.h:214-228 | the second-order formula on a history advancing by s per step also yields s/Δt |
| `StructuralMeshMovingStrategy.FirstOrderInverts` | applications/ALEapplication/custom_strategies/strategies/structural_meshmoving_strategy.h:202-213 | the previous displacement plus Δt times the first-order velocity gives back the current displacement |
| `StructuralMeshMovingStrategy.MeshElementsOf` | applications/ALEapplication/custom_strategies/strategies/structural_meshmoving_strategy.h:349-357 | one mesh element per model-part element, with the same Id, geometry and properties |
| `StructuralMeshMovingStrategy.Strategy.constructor` | applications/ALEapplication/custom_strategies/strategies/structural_meshmoving_strategy.h:114-150 | the mesh part is built and the velocity order and reform flag are stored. The inner strategy never computes reactions, because a local compute_reactions = false shadows the argument |
| `StructuralMeshMovingStrategy.Strategy.GenerateMeshPart` | applications/ALEapplication/custom_strategies/strategies/structural_meshmoving_strategy.h:336-358 | the element loop builds MeshElementsOf the elements |
| `StructuralMeshMovingStrategy.Strategy.ResetToReference` | applications/ALEapplication/custom_strategies/strategies/structural_meshmoving_strategy.h:164-169 | every node is put back at X0; nothing else changes |
| `StructuralMeshMovingStrategy.Strategy.InnerSolve` | applications/ALEapplication/custom_strategies/strategies/structural_meshmoving_strategy.h:173 | the inner solve writes the given solution to MESH_DISPLACEMENT at step 0 and nothing else |
| `StructuralMeshMovingStrategy.Strategy.CalculateMeshVelocities` | applications/ALEapplication/custom_strategies/strategies/structural_meshmoving_strategy.h:190-231 | every node's MESH_VELOCITY is the order-1 or order-2 formula over its MESH_DISPLACEMENT history, with the effective Δt |
| `StructuralMeshMovingStrategy.Strategy.MoveMesh` | applications/ALEapplication/custom_strategies/strategies/structural_meshmoving_strategy.h:238-247 | X = X0 + MESH_DISPLACEMENT on every node; X0 stays |
| `StructuralMeshMovingStrategy.Strategy.UpdateReferenceMesh` | applications/ALEapplication/custom_strategies/strategies/structural_meshmoving_strategy.h:250-259 | X0 = X on every node |
| `StructuralMeshMovingStrategy.Strategy.Solve` | applications/ALEapplication/custom_strategies/strategies/structural_meshmoving_strategy.h:158-187 | every node becomes SolvedNode for its solution: reset, solved, given its velocity, and moved. The inner strategy is cleared once exactly when DoFs are reformed at every step, and the result is 0.0 |
| `StructuralMeshMovingStrategy.SolvedNodeMovesByDisplacement` | applications/ALEapplication/custom_strategies/strategies/structural_meshmoving_strategy.h:158-187 | after Solve a node sits at X0 + u with X0 unchanged, and with order 1 its velocity times Δt takes the previous displacement to u |
| `ChimeraProcess.ClearedVisits` | applications/ChimeraApplication/custom_processes/apply_chimera_process_FractionalStep.h:614-620 | VISITED is false on exactly the listed boundary nodes; every other node is unchanged |
| `ChimeraProcess.DistributedOntoReset` | applications/ChimeraApplication/custom_processes/apply_chimera_process_FractionalStep.h:1040-1096 | after the reset and the distribution, a condition node holds exactly its shares of the condition normals and its NODAL_MASS has grown by its shares of their lengths; other nodes are unchanged |
| `ChimeraProcess.DistributedNode` | applications/ChimeraApplication/custom_processes/apply_chimera_process_FractionalStep.h:1040-1096 | the same, for one node |
| `ChimeraProcess.AreasAdded` | applications/ChimeraApplication/custom_processes/apply_chimera_process_FractionalStep.h:1022-1098 | nodes changed that way are WithAreas of the nodes before |
| `ChimeraProcess.WithAreas` | applications/ChimeraApplication/custom_processes/apply_chimera_process_FractionalStep.h:1022-1098 | the nodes after CalculateNodalAreaAndNodalMass keep their number |
| `ChimeraProcess.CutInsideKept` | applications/ChimeraApplication/custom_processes/apply_chimera_process_FractionalStep.h:880-990 | a cut lies inside the model part as long as the nodes keep their coordinates |
| `ChimeraProcess.Prepared` | applications/ChimeraApplication/custom_processes/apply_chimera_process_FractionalStep.h:955-956 | preparing both boundaries (patch with sign 1, hole with sign −1) keeps the number of nodes |
| `ChimeraProcess.Emptied` | applications/ChimeraApplication/custom_processes/apply_chimera_process_FractionalStep.h:206-215 | MpcData's Clear leaves no edges, no nodal normals and no constants, and keeps RtMinvR |
| `ChimeraProcess.VisitedHoles` | applications/ChimeraApplication/custom_processes/apply_chimera_process_FractionalStep.h:951-953 | marking the hole elements VISITED keeps the number of elements |
| `ChimeraProcess.VisitedHolesTwice` | applications/ChimeraApplication/custom_processes/apply_chimera_process_FractionalStep.h:951-953 | marking one list of holes and then another marks both |
| `ChimeraProcess.Activated` | applications/ChimeraApplication/custom_processes/apply_chimera_process_FractionalStep.h:839-843 | the first loop of DoChimeraLoop keeps the number of elements |
| `ChimeraProcess.Unvisited` | applications/ChimeraApplication/custom_processes/apply_chimera_process_FractionalStep.h:845-848 | clearing VISITED on the nodes moves no node |
| `ChimeraProcess.Unsplit` | applications/ChimeraApplication/custom_processes/apply_chimera_process_FractionalStep.h:225-228 | clearing SPLIT_ELEMENT keeps the number of elements |
| `ChimeraProcess.Released` | applications/ChimeraApplication/custom_processes/apply_chimera_process_FractionalStep.h:240-245 | clearing VISITED and SPLIT_ELEMENT keeps the number of elements |
| `ChimeraProcess.Weakened` | applications/ChimeraApplication/custom_processes/apply_chimera_process_FractionalStep.h:960-965 | each store takes the IsWeak flag and nothing else of its settings changes |
| `ChimeraProcess.SweptConcat` | applications/ChimeraApplication/custom_processes/apply_chimera_process_FractionalStep.h:852-876 | sweeping two lists of pairings one after the other is sweeping their concatenation |
| `ChimeraProcess.SweptRaised` | applications/ChimeraApplication/custom_processes/apply_chimera_process_FractionalStep.h:852-876 | once a FormulateChimera has raised, the rest of the loop changes nothing |
| `ChimeraProcess.RaisedSpan` | applications/ChimeraApplication/custom_processes/apply_chimera_process_FractionalStep.h:852-876 | a sweep that raised after a prefix of the pairings ends in the same state as the whole sweep |
| `ChimeraProcess.NewStore` | applications/ChimeraApplication/custom_processes/apply_chimera_process_FractionalStep.h:146-168 | a new store holds the given type, name, active flag and velocity-or-pressure mark, with no edges, normals or constants |
| `ChimeraProcess.Process.constructor` | applications/ChimeraApplication/custom_processes/apply_chimera_process_FractionalStep.h:108-180 | four new active stores named MPC_Patch_Velocity, MPC_Patch_Pressure, MPC_Background_Velocity and MPC_Background_Pressure are appended in that order to the container, which is created when absent; the parameters are kept |
| `ChimeraProcess.Process.Clear` | applications/ChimeraApplication/custom_processes/apply_chimera_process_FractionalStep.h:206-215 | the four stores forget their edges, normals and constants; their settings are unchanged |
| `ChimeraProcess.Process.SetActive` | applications/ChimeraApplication/custom_processes/apply_chimera_process_FractionalStep.h:1349-1356 | all four stores become active or inactive, and their edges are unchanged |
| `ChimeraProcess.Process.SetType` | applications/ChimeraApplication/custom_processes/apply_chimera_process_FractionalStep.h:1003-1020 | succeeds exactly for "nearest_element" and "conservative", and then the process and all four stores take the type; any other type raises and changes nothing |
| `ChimeraProcess.Process.SetOverlapDistance` | applications/ChimeraApplication/custom_processes/apply_chimera_process_FractionalStep.h:997-1001 | the overlap distance is the argument and the type is unchanged |
| `ChimeraProcess.Process.SetRtMinvR` | applications/ChimeraApplication/custom_processes/apply_chimera_process_FractionalStep.h:1358-1361 | the store's RtMinvR is overwritten |
| `ChimeraProcess.Process.AddMasterSlaveRelation` | applications/ChimeraApplication/custom_processes/apply_chimera_process_FractionalStep.h:1254-1290 | the slave node is marked SLAVE and the edge with the weight and constant is inserted |
| `ChimeraProcess.Process.RemoveRelationOfNode` | applications/ChimeraApplication/custom_processes/apply_chimera_process_FractionalStep.h:1292-1297 | the node-based removal marks the node SLAVE and removes the slave's edges |
| `ChimeraProcess.Process.RemoveRelationOfNodeId` | applications/ChimeraApplication/custom_processes/apply_chimera_process_FractionalStep.h:1299-1306 | the id-based removal clears SLAVE and removes the slave's edges |
| `ChimeraProcess.Process.AddNodalNormal` | applications/ChimeraApplication/custom_processes/apply_chimera_process_FractionalStep.h:1340-1343 | the slave DoF's nodal-normal component is (over)written |
| `ChimeraProcess.Process.RemoveScope` | applications/ChimeraApplication/custom_processes/apply_chimera_process_FractionalStep.h:466-481 | one node's removals: X, Y, Z in 3D, then pressure, as far as the scope covers them; the node is marked SLAVE when anything is covered |
| `ChimeraProcess.Process.AddHostEdge` | applications/ChimeraApplication/custom_processes/apply_chimera_process_FractionalStep.h:501-522 | one host's edges to the node, as far as the scope covers them; the node is marked SLAVE |
| `ChimeraProcess.Process.CoupleNode` | applications/ChimeraApplication/custom_processes/apply_chimera_process_FractionalStep.h:453-540 | one boundary node's turn over one store: the node becomes CoupledNode of it and the store NodeEdges |
| `ChimeraProcess.Process.PrepareNode` | applications/ChimeraApplication/custom_processes/apply_chimera_process_FractionalStep.h:466-492 | the start of a turn: the edges in scope go when removing, and buffer 0 in scope is reset to 0 |
| `ChimeraProcess.Process.FinishNode` | applications/ChimeraApplication/custom_processes/apply_chimera_process_FractionalStep.h:528-540 | the end of a turn: buffer 1 takes buffer 0 in scope when copying, and VISITED is set when marking |
| `ChimeraProcess.Process.CoupleNodeInTwoStores` | applications/ChimeraApplication/custom_processes/apply_chimera_process_FractionalStep.h:453-540 | one turn over the velocity store and the pressure store is CoupledNode over both scopes, with each store getting its own edges |
| `ChimeraProcess.Process.AccumulateHost` | applications/ChimeraApplication/custom_processes/apply_chimera_process_FractionalStep.h:501-522 | one host adds its value times N_i to buffer 0 in scope and its edges to the store |
| `ChimeraProcess.Process.AccumulateHosts` | applications/ChimeraApplication/custom_processes/apply_chimera_process_FractionalStep.h:498-526 | the host loop leaves buffer 0 in scope equal to Σ N_i·(host value) and adds every host's edges |
| `ChimeraProcess.Process.ClearVisits` | applications/ChimeraApplication/custom_processes/apply_chimera_process_FractionalStep.h:614-620 | VISITED is cleared on the boundary nodes, one after the other |
| `ChimeraProcess.Process.PassOverStore` | applications/ChimeraApplication/custom_processes/apply_chimera_process_FractionalStep.h:614-679 | a pass writing to one store is Pass over the boundary |
| `ChimeraProcess.Process.PassOverTwoStores` | applications/ChimeraApplication/custom_processes/apply_chimera_process_FractionalStep.h:450-541 | a pass writing velocity to one store and pressure to the other is Pass over the boundary |
| `ChimeraProcess.Process.CoupleOneNode` | applications/ChimeraApplication/custom_processes/apply_chimera_process_FractionalStep.h:543-596 | raises exactly when the chosen node is not on the boundary, changing nothing; otherwise it is OneStep of the chosen node |
| `ChimeraProcess.Process.ApplyMpcConstraint` | applications/ChimeraApplication/custom_processes/apply_chimera_process_FractionalStep.h:259-427 | an interpolating pass over one store, for the velocity and for the pressure under "all"; the "one" coupling then raises only when its node lookup fails |
| `ChimeraProcess.Process.ApplyMpcConstraintForFractionalStep` | applications/ChimeraApplication/custom_processes/apply_chimera_process_FractionalStep.h:429-601 | an interpolating pass writing the velocity to the velocity store and the pressure, under "all", to the pressure store; the "one" coupling then raises only when its node lookup fails |
| `ChimeraProcess.Process.ApplyMpcConstraintFractionalVelocity` | applications/ChimeraApplication/custom_processes/apply_chimera_process_FractionalStep.h:603-682 | VISITED is cleared on the boundary, then a pass writes the velocity, copying buffer 0 to buffer 1 whether or not a host was found, without removing edges or marking nodes |
| `ChimeraProcess.Process.ApplyMpcConstraintFractionalPressure` | applications/ChimeraApplication/custom_processes/apply_chimera_process_FractionalStep.h:684-799 | VISITED is cleared, a pass writes the pressure under "all", and the "one" coupling runs without the VISITED check |
| `ChimeraProcess.Process.CalculateNodalAreaAndNodalMass` | applications/ChimeraApplication/custom_processes/apply_chimera_process_FractionalStep.h:1022-1098 | the conditions are their ConditionNormals about the boundary's centre, the nodes are WithAreas of them, and nodes outside the conditions are unchanged |
| `ChimeraProcess.Process.ZeroNormalsOn` | applications/ChimeraApplication/custom_processes/apply_chimera_process_FractionalStep.h:1040-1048 | NORMAL is zero on exactly the nodes of the condition geometries |
| `ChimeraProcess.Process.BoundaryCentre` | applications/ChimeraApplication/custom_processes/apply_chimera_process_FractionalStep.h:1050-1056 | the centre loop computes Centre |
| `ChimeraProcess.Process.OrientConditionNormals` | applications/ChimeraApplication/custom_processes/apply_chimera_process_FractionalStep.h:1058-1080 | the normal loop computes ConditionNormals |
| `ChimeraProcess.Process.CalculateNormal2D` | applications/ChimeraApplication/custom_processes/apply_chimera_process_FractionalStep.h:1101-1122 | condition k gets its oriented edge normal; the other conditions are unchanged |
| `ChimeraProcess.Process.CalculateNormal3D` | applications/ChimeraApplication/custom_processes/apply_chimera_process_FractionalStep.h:1125-1153 | condition k gets its oriented half cross product; the other conditions are unchanged |
| `ChimeraProcess.Process.DistributeToNodes` | applications/ChimeraApplication/custom_processes/apply_chimera_process_FractionalStep.h:1083-1096 | the distribution loop gives every node the distributed NORMAL and NODAL_MASS |
| `ChimeraProcess.Process.AddConditionShares` | applications/ChimeraApplication/custom_processes/apply_chimera_process_FractionalStep.h:1086-1095 | one condition gives each of its nodes NORMAL/size and \|NORMAL\|/size per occurrence |
| `ChimeraProcess.Process.AttachNodeNormal` | applications/ChimeraApplication/custom_processes/apply_chimera_process_FractionalStep.h:815-824 | one node's component loop attaches its first dim NORMAL components and returns its n²/M gain |
| `ChimeraProcess.Process.AttachNormals` | applications/ChimeraApplication/custom_processes/apply_chimera_process_FractionalStep.h:812-828 | raises exactly at the first zero NODAL_MASS; the normals of the nodes before it are attached in both stores; on completion RtMinvR is the boundary's Σ n²/M |
| `ChimeraProcess.Process.ApplyMpcConstraintConservative` | applications/ChimeraApplication/custom_processes/apply_chimera_process_FractionalStep.h:801-835 | the interpolating pass of ApplyMpcConstraintForFractionalStep, then the conservative correction on its result; a failing "one" node lookup stops it before the correction; when the velocity slaves are exactly the boundary nodes' velocity DoFs, each once, with distinct equation ids, a completed run leaves zero flux Σ n_k·v_k over the slaves |
| `ChimeraProcess.Process.Correction` | applications/ChimeraApplication/custom_processes/apply_chimera_process_FractionalStep.h:811-834 | a raising correction leaves the nodes and constants as they were, and no correction moves a node |
| `ChimeraProcess.Process.ConservativeCorrection` | applications/ChimeraApplication/custom_processes/apply_chimera_process_FractionalStep.h:811-834 | the normals, RtMinvR, the constants and their addition leave what Correction describes |
| `ChimeraProcess.Process.CalculateConservativeCorrections` | applications/ChimeraApplication/custom_processes/apply_chimera_process_FractionalStep.h:1156-1223 | completes exactly when every slave's node is in the model part and every divisor NODAL_MASS·RtMinvR is nonzero; it then files each slave's constant under its equation id and otherwise changes nothing |
| `ChimeraProcess.Process.SlaveCorrection` | applications/ChimeraApplication/custom_processes/apply_chimera_process_FractionalStep.h:1174-1198 | the inner loop for one slave computes its running correction over all slaves, and stops at a slave outside the model part |
| `ChimeraProcess.Process.FileConstants` | applications/ChimeraApplication/custom_processes/apply_chimera_process_FractionalStep.h:1205-1216 | each slave's constant is filed under its equation id, in order |
| `ChimeraProcess.Process.ApplyConservativeCorrections` | applications/ChimeraApplication/custom_processes/apply_chimera_process_FractionalStep.h:1225-1244 | the nodes become Shifted by the filed constants |
| `ChimeraProcess.Process.CutsInsideKept` | applications/ChimeraApplication/custom_processes/apply_chimera_process_FractionalStep.h:852-876 | every pairing's cut stays inside the model part while the nodes keep their coordinates |
| `ChimeraProcess.Process.BoundaryCoupled` | applications/ChimeraApplication/custom_processes/apply_chimera_process_FractionalStep.h:971-983 | coupling a boundary moves no node and leaves the pressure store's RtMinvR and constants as they were |
| `ChimeraProcess.Process.CutCoupled` | applications/ChimeraApplication/custom_processes/apply_chimera_process_FractionalStep.h:971-983 | coupling both boundaries moves no node |
| `ChimeraProcess.Process.PatchLevelsStep` | applications/ChimeraApplication/custom_processes/apply_chimera_process_FractionalStep.h:856-874 | one more patch level sweeps its row after the levels before it |
| `ChimeraProcess.Process.PatchLevelsRaised` | applications/ChimeraApplication/custom_processes/apply_chimera_process_FractionalStep.h:856-874 | after a raise the remaining patch levels change nothing |
| `ChimeraProcess.Process.BackgroundRowStep` | applications/ChimeraApplication/custom_processes/apply_chimera_process_FractionalStep.h:854-875 | one more background entry sweeps its patch levels after the entries before it |
| `ChimeraProcess.Process.BackgroundRowRaised` | applications/ChimeraApplication/custom_processes/apply_chimera_process_FractionalStep.h:854-875 | after a raise the remaining background entries change nothing |
| `ChimeraProcess.Process.PairingsStep` | applications/ChimeraApplication/custom_processes/apply_chimera_process_FractionalStep.h:852-876 | one more background level sweeps its row after the levels before it |
| `ChimeraProcess.Process.PairingsRaised` | applications/ChimeraApplication/custom_processes/apply_chimera_process_FractionalStep.h:852-876 | after a raise the remaining background levels change nothing |
| `ChimeraProcess.Process.CoupleBoundary` | applications/ChimeraApplication/custom_processes/apply_chimera_process_FractionalStep.h:971-983 | one boundary coupled by the process's type leaves BoundaryCoupled and moves no node |
| `ChimeraProcess.Process.MarkHole` | applications/ChimeraApplication/custom_processes/apply_chimera_process_FractionalStep.h:951-953 | the hole elements become VISITED |
| `ChimeraProcess.Process.FormulateChimera` | applications/ChimeraApplication/custom_processes/apply_chimera_process_FractionalStep.h:880-990 | an overlap distance below 1e-12 raises and changes nothing, and one equal to it changes nothing. Above it the holes become VISITED, both boundaries get their areas and masses, the stores take IsWeak, and both boundaries are coupled; no node moves |
| `ChimeraProcess.Process.FormulateCut` | applications/ChimeraApplication/custom_processes/apply_chimera_process_FractionalStep.h:909-985 | the branch above 1e-12 leaves CutFormulation |
| `ChimeraProcess.Process.PrepareCut` | applications/ChimeraApplication/custom_processes/apply_chimera_process_FractionalStep.h:951-956 | the hole elements become VISITED, the patch boundary (sign 1) and then the hole boundary (sign −1) get their areas and masses, and the stores are unchanged |
| `ChimeraProcess.Process.WeakenStores` | applications/ChimeraApplication/custom_processes/apply_chimera_process_FractionalStep.h:960-965 | the four stores take the IsWeak flag and nothing else of them changes |
| `ChimeraProcess.Process.CoupleBoundaries` | applications/ChimeraApplication/custom_processes/apply_chimera_process_FractionalStep.h:971-983 | the patch boundary is coupled to the background with the patch stores, then, unless that raises, the hole boundary to the patch with the background stores |
| `ChimeraProcess.Process.ActivateUnvisited` | applications/ChimeraApplication/custom_processes/apply_chimera_process_FractionalStep.h:839-843 | every element that is not VISITED becomes ACTIVE |
| `ChimeraProcess.Process.ResetNodeVisits` | applications/ChimeraApplication/custom_processes/apply_chimera_process_FractionalStep.h:845-848 | VISITED is cleared on every node |
| `ChimeraProcess.Process.PatchRowLoop` | applications/ChimeraApplication/custom_processes/apply_chimera_process_FractionalStep.h:858-873 | the innermost loop sweeps its row of pairings |
| `ChimeraProcess.Process.PatchLevelsLoop` | applications/ChimeraApplication/custom_processes/apply_chimera_process_FractionalStep.h:856-874 | the patch-level loop sweeps every level above the background level |
| `ChimeraProcess.Process.BackgroundRowLoop` | applications/ChimeraApplication/custom_processes/apply_chimera_process_FractionalStep.h:854-875 | the background-entry loop sweeps every entry of the level against every higher level |
| `ChimeraProcess.Process.LevelLoop` | applications/ChimeraApplication/custom_processes/apply_chimera_process_FractionalStep.h:852-876 | the level loop sweeps every pairing in the loop's order |
| `ChimeraProcess.Process.FormulationKeeps` | applications/ChimeraApplication/custom_processes/apply_chimera_process_FractionalStep.h:880-990 | no FormulateChimera moves a node; the holes become VISITED and the stores take IsWeak exactly when the overlap distance is above 1e-12 |
| `ChimeraProcess.Process.SweptKeeps` | applications/ChimeraApplication/custom_processes/apply_chimera_process_FractionalStep.h:852-876 | no sweep moves a node |
| `ChimeraProcess.Process.SweptBelowEpsilon` | applications/ChimeraApplication/custom_processes/apply_chimera_process_FractionalStep.h:903-907 | below 1e-12 the first pairing raises and nothing else changes |
| `ChimeraProcess.Process.SweptAtEpsilon` | applications/ChimeraApplication/custom_processes/apply_chimera_process_FractionalStep.h:903-909 | at exactly 1e-12 no pairing changes anything |
| `ChimeraProcess.Process.SweptHoles` | applications/ChimeraApplication/custom_processes/apply_chimera_process_FractionalStep.h:951-953 | above 1e-12 a sweep that does not raise leaves VISITED exactly the elements of its pairings' holes, on top of those that were VISITED before |
| `ChimeraProcess.Process.PairingsFit` | applications/ChimeraApplication/custom_processes/apply_chimera_process_FractionalStep.h:852-876 | the loop meets only pairings whose cuts fit the model part |
| `ChimeraProcess.Process.LoopBelowEpsilon` | applications/ChimeraApplication/custom_processes/apply_chimera_process_FractionalStep.h:852-907 | the whole loop below 1e-12 raises at the first pairing when there is one, and changes nothing else |
| `ChimeraProcess.Process.LoopHoles` | applications/ChimeraApplication/custom_processes/apply_chimera_process_FractionalStep.h:852-953 | the whole loop above 1e-12, when it does not raise, leaves VISITED exactly the old VISITED elements and the holes of every pairing |
| `ChimeraProcess.Process.ClearSplits` | applications/ChimeraApplication/custom_processes/apply_chimera_process_FractionalStep.h:225-228 | SPLIT_ELEMENT is false on every element |
| `ChimeraProcess.Process.ReleaseElements` | applications/ChimeraApplication/custom_processes/apply_chimera_process_FractionalStep.h:240-245 | VISITED and SPLIT_ELEMENT are false on every element |
| `ChimeraProcess.Process.DoChimeraLoop` | applications/ChimeraApplication/custom_processes/apply_chimera_process_FractionalStep.h:837-878 | the elements that are not VISITED become ACTIVE, VISITED is cleared on the nodes, then every pairing of a background level with a higher patch level is formulated in the loop's order until one raises |
| `ChimeraProcess.Process.ExecuteInitializeSolutionStep` | applications/ChimeraApplication/custom_processes/apply_chimera_process_FractionalStep.h:221-233 | SPLIT_ELEMENT is cleared on every element, then DoChimeraLoop runs; what it raises is raised |
| `ChimeraProcess.Process.ExecuteFinalizeSolutionStep` | applications/ChimeraApplication/custom_processes/apply_chimera_process_FractionalStep.h:235-245 | the four stores are cleared, and VISITED and SPLIT_ELEMENT are false on every element; nodes and store settings stay |
| `ChimeraCoupling.Union` | applications/ChimeraApplication/custom_processes/apply_chimera_process_FractionalStep.h:466-536 | the components either store's scope covers; it is nonempty exactly when one of them is |
| `ChimeraCoupling.InterpolationOfConstant` | applications/ChimeraApplication/custom_processes/apply_chimera_process_FractionalStep.h:498-526 | interpolating a field that is constant on the host nodes gives the constant times Σ N_i, so the constant itself when Σ N_i = 1 |
| `ChimeraCoupling.InterpolationReadsHosts` | applications/ChimeraApplication/custom_processes/apply_chimera_process_FractionalStep.h:498-526 | the interpolation reads only buffer 0 of the host element's nodes |
| `ChimeraCoupling.Partial` | applications/ChimeraApplication/custom_processes/apply_chimera_process_FractionalStep.h:498-526 | each component in scope is the interpolation Σ N_i·(host value); the others keep their values |
| `ChimeraCoupling.Reset` | applications/ChimeraApplication/custom_processes/apply_chimera_process_FractionalStep.h:483-492 | the components in scope are reset to 0 and the others keep their values |
| `ChimeraCoupling.Accumulated` | applications/ChimeraApplication/custom_processes/apply_chimera_process_FractionalStep.h:501-519 | one host adds its value times N_i to each component in scope and to no other |
| `ChimeraCoupling.PartialOfNoHosts` | applications/ChimeraApplication/custom_processes/apply_chimera_process_FractionalStep.h:483-492 | before the first host the components in scope hold the reset value 0 |
| `ChimeraCoupling.PartialStep` | applications/ChimeraApplication/custom_processes/apply_chimera_process_FractionalStep.h:498-526 | each further host of the loop adds its value times its shape-function value |
| `ChimeraCoupling.Interpolated` | applications/ChimeraApplication/custom_processes/apply_chimera_process_FractionalStep.h:483-526 | buffer 0 after a node's turn: components in scope are the interpolation when a host is found and 0 otherwise; other components are unchanged |
| `ChimeraCoupling.Copied` | applications/ChimeraApplication/custom_processes/apply_chimera_process_FractionalStep.h:528-536 | buffer 1 of the components in scope becomes buffer 0; the others keep their values |
| `ChimeraCoupling.ScopeKeys` | applications/ChimeraApplication/custom_processes/apply_chimera_process_FractionalStep.h:466-536 | a node's slaves in scope are VELOCITY_X and _Y, VELOCITY_Z in 3D, and PRESSURE when pressure is coupled |
| `ChimeraCoupling.HostEdgeEffect` | applications/ChimeraApplication/custom_processes/apply_chimera_process_FractionalStep.h:1254-1285 | one host's AddMasterSlaveRelation calls make each of the node's slaves in scope a slave whose edge from the host's same component has weight N and constant 0; nothing else changes |
| `ChimeraCoupling.HostEdgesStep` | applications/ChimeraApplication/custom_processes/apply_chimera_process_FractionalStep.h:498-526 | the host loop after i + 1 hosts is host i's edges on top of those of the first i hosts |
| `ChimeraCoupling.RemoveEdgesEffect` | applications/ChimeraApplication/custom_processes/apply_chimera_process_FractionalStep.h:466-481 | the removal leaves the node's slaves in scope without masters and touches no other slave |
| `ChimeraCoupling.HostEdgesOfEmptyScope` | applications/ChimeraApplication/custom_processes/apply_chimera_process_FractionalStep.h:498-526 | a scope without components adds no edges |
| `ChimeraCoupling.NodeEdgesParts` | applications/ChimeraApplication/custom_processes/apply_chimera_process_FractionalStep.h:466-526 | a node's edges are the host edges added on top of what the removal left |
| `ChimeraCoupling.NodeEdgesOfEmptyScope` | applications/ChimeraApplication/custom_processes/apply_chimera_process_FractionalStep.h:466-526 | a scope without components neither removes nor adds edges |
| `ChimeraCoupling.HostEdgesFrame` | applications/ChimeraApplication/custom_processes/apply_chimera_process_FractionalStep.h:498-526 | the host edges touch only the node's slaves in scope |
| `ChimeraCoupling.HostEdgesLast` | applications/ChimeraApplication/custom_processes/apply_chimera_process_FractionalStep.h:498-526 | the last host's edge to a slave in scope overwrites or adds exactly that one master |
| `ChimeraCoupling.HostKeys` | applications/ChimeraApplication/custom_processes/apply_chimera_process_FractionalStep.h:498-526 | the DoFs of one component of the host nodes |
| `ChimeraCoupling.HostKeysMembers` | applications/ChimeraApplication/custom_processes/apply_chimera_process_FractionalStep.h:498-526 | a DoF is a host key exactly when it is that component of one of the hosts |
| `ChimeraCoupling.HostEdgesKeys` | applications/ChimeraApplication/custom_processes/apply_chimera_process_FractionalStep.h:498-526 | each slave in scope gains an edge from every host's same component, keeps its earlier masters, and is a slave once a host exists |
| `ChimeraCoupling.HostEdgesAsMasters` | applications/ChimeraApplication/custom_processes/apply_chimera_process_FractionalStep.h:498-526 | the host edges give each slave in scope the masters HostMasters describes |
| `ChimeraCoupling.HostMastersWeight` | applications/ChimeraApplication/custom_processes/apply_chimera_process_FractionalStep.h:498-526 | a host that does not recur later in the element has an edge of weight N_i |
| `ChimeraCoupling.NodeEdgesFrame` | applications/ChimeraApplication/custom_processes/apply_chimera_process_FractionalStep.h:466-526 | one node's turn leaves every other slave's masters as they were |
| `ChimeraCoupling.NodeEdgesKeys` | applications/ChimeraApplication/custom_processes/apply_chimera_process_FractionalStep.h:466-526 | when a host is found, a slave in scope has the hosts' same components as masters, plus its earlier masters unless they were removed first |
| `ChimeraCoupling.NodeEdgesWeight` | applications/ChimeraApplication/custom_processes/apply_chimera_process_FractionalStep.h:466-526 | with distinct host nodes, the edge from host i to a slave in scope has weight N_i and constant 0 |
| `ChimeraCoupling.CoupledNode` | applications/ChimeraApplication/custom_processes/apply_chimera_process_FractionalStep.h:453-540 | a node's turn: buffer 0 in scope is the interpolation, or 0 when no host is found; buffer 1 follows it when the variant copies or a host is found; VISITED is set by an interpolating pass; position, normal and mass are unchanged |
| `ChimeraCoupling.Step` | applications/ChimeraApplication/custom_processes/apply_chimera_process_FractionalStep.h:450-540 | a node's turn keeps the number of nodes |
| `ChimeraCoupling.Pass` | applications/ChimeraApplication/custom_processes/apply_chimera_process_FractionalStep.h:450-541 | the loop over the boundary nodes keeps the number of nodes and their positions |
| `ChimeraCoupling.PassStep` | applications/ChimeraApplication/custom_processes/apply_chimera_process_FractionalStep.h:450-541 | the pass over i + 1 boundary nodes is node i's turn after the pass over the first i |
| `ChimeraCoupling.PassConcat` | applications/ChimeraApplication/custom_processes/apply_chimera_process_FractionalStep.h:450-541 | a pass over a + b is the pass over b after the pass over a |
| `ChimeraCoupling.PassFrame` | applications/ChimeraApplication/custom_processes/apply_chimera_process_FractionalStep.h:450-541 | a pass leaves nodes off the boundary, and their slaves in both stores, as they were |
| `ChimeraCoupling.PassVisitsBoundary` | applications/ChimeraApplication/custom_processes/apply_chimera_process_FractionalStep.h:540 | after an interpolating pass every boundary node is VISITED |
| `ChimeraCoupling.PassAroundNode` | applications/ChimeraApplication/custom_processes/apply_chimera_process_FractionalStep.h:450-541 | a pass is the pass over the nodes before j, node j's turn, then the pass over the rest |
| `ChimeraCoupling.CoupledNodeReadsHosts` | applications/ChimeraApplication/custom_processes/apply_chimera_process_FractionalStep.h:498-526 | a node's turn reads other nodes only through its hosts' buffer 0 |
| `ChimeraCoupling.CoupledNodeParts` | applications/ChimeraApplication/custom_processes/apply_chimera_process_FractionalStep.h:483-540 | a node's turn in two parts: buffer 0 and SLAVE, then buffer 1 and VISITED |
| `ChimeraCoupling.CoupledNodeUnion` | applications/ChimeraApplication/custom_processes/apply_chimera_process_FractionalStep.h:466-540 | the velocity turn followed by the pressure turn equals one turn over both scopes, since each component is written by only one of them |
| `ChimeraCoupling.PassCouplesNode` | applications/ChimeraApplication/custom_processes/apply_chimera_process_FractionalStep.h:450-541 | interpolation: a node listed once whose hosts lie off the boundary ends up as its own turn made it from the state before the pass, buffer 0 being Σ N_i·(host value) |
| `ChimeraCoupling.PassCouplesNodeEdges` | applications/ChimeraApplication/custom_processes/apply_chimera_process_FractionalStep.h:450-541 | edges: a node listed once has, in each store, exactly the masters its own turn gives it from the state before the pass |
| `ChimeraCoupling.NodeEdgesSameMasters` | applications/ChimeraApplication/custom_processes/apply_chimera_process_FractionalStep.h:466-526 | a node's edges after its turn depend only on its own slaves' masters before it |
| `ChimeraCoupling.HostEdgesSameMasters` | applications/ChimeraApplication/custom_processes/apply_chimera_process_FractionalStep.h:498-526 | the host edges of a slave depend only on its masters before the loop |
| `ChimeraCoupling.SelectedNode` | applications/ChimeraApplication/custom_processes/apply_chimera_process_FractionalStep.h:545-558 | parameter 0 selects the first boundary node; otherwise the node whose id is the truncated parameter, an error when it is not on the boundary |
| `ChimeraCoupling.OneStep` | applications/ChimeraApplication/custom_processes/apply_chimera_process_FractionalStep.h:560-595 | the "one" pressure coupling changes nothing on a node already VISITED; otherwise it interpolates the pressure, copies it to buffer 1 and adds the hosts' pressure edges |
| `ChimeraCoupling.OneCouplingAfterPassIsIdle` | applications/ChimeraApplication/custom_processes/apply_chimera_process_FractionalStep.h:540-595 | after an interpolating pass the "one" coupling of a boundary node changes nothing, because the pass has just marked it VISITED |
| `ChimeraConservative.Lookup` | applications/ChimeraApplication/custom_processes/apply_chimera_process_FractionalStep.h:1175 | `operator[]` on a map reads 0 for an absent key and the stored value otherwise |
| `ChimeraConservative.VelocityComponent` | applications/ChimeraApplication/custom_processes/apply_chimera_process_FractionalStep.h:809 | dofComponentVector holds velocity components only, never PRESSURE |
| `ChimeraConservative.NormalIndex` | applications/ChimeraApplication/custom_processes/apply_chimera_process_FractionalStep.h:815-820 | a velocity component is entry i of dofComponentVector for the NORMAL index i it reads |
| `ChimeraConservative.ComponentsAttachedAt` | applications/ChimeraApplication/custom_processes/apply_chimera_process_FractionalStep.h:815-824 | after one node's component loop, each of its first dim velocity DoFs carries that NORMAL component; every other entry is unchanged |
| `ChimeraConservative.NormalsAttachedAt` | applications/ChimeraApplication/custom_processes/apply_chimera_process_FractionalStep.h:812-828 | after the node loop, each of the first dim velocity DoFs of a boundary node carries that component of the node's NORMAL, however often the node is visited; every other entry is unchanged |
| `ChimeraConservative.PressureAttachedAt` | applications/ChimeraApplication/custom_processes/apply_chimera_process_FractionalStep.h:827 | after the node loop, exactly the boundary nodes' PRESSURE DoFs carry normal component 0 in the pressure store |
| `ChimeraConservative.FirstZeroMass` | applications/ChimeraApplication/custom_processes/apply_chimera_process_FractionalStep.h:814-823 | the first boundary node whose NODAL_MASS is 0, where the division n²/M is undefined; all earlier masses are nonzero, and it is the end exactly when no mass is 0 |
| `ChimeraConservative.FirstZeroAt` | applications/ChimeraApplication/custom_processes/apply_chimera_process_FractionalStep.h:812-823 | the loop's first zero-mass node is the first index whose mass is 0 |
| `ChimeraConservative.AttachStep` | applications/ChimeraApplication/custom_processes/apply_chimera_process_FractionalStep.h:812-828 | one more node with a nonzero mass extends the velocity normals, the pressure normals and Rt·M⁻¹·R by that node's contribution |
| `ChimeraConservative.NodeRtMinvRIsNonnegative` | applications/ChimeraApplication/custom_processes/apply_chimera_process_FractionalStep.h:823 | a node's contribution n²/M to Rt·M⁻¹·R is not negative for a positive mass |
| `ChimeraConservative.BoundaryRtMinvRIsNonnegative` | applications/ChimeraApplication/custom_processes/apply_chimera_process_FractionalStep.h:804-830 | with positive nodal masses the accumulated Rt·M⁻¹·R is not negative |
| `ChimeraConservative.SlaveNormals` | applications/ChimeraApplication/custom_processes/apply_chimera_process_FractionalStep.h:1175 | entry k is the nodal-normal component stored for slave k, 0 when none is stored |
| `ChimeraConservative.SlaveMasses` | applications/ChimeraApplication/custom_processes/apply_chimera_process_FractionalStep.h:1174 | entry k is the NODAL_MASS of slave k's node |
| `ChimeraConservative.SlaveValues` | applications/ChimeraApplication/custom_processes/apply_chimera_process_FractionalStep.h:1186 | entry k is the buffer-0 value of slave k's DoF |
| `ChimeraConservative.SlaveConstants` | applications/ChimeraApplication/custom_processes/apply_chimera_process_FractionalStep.h:1156-1195 | one constant per slave in iteration order: the double loop's −Σ (n_k n_j)/(M_k·RtMinvR)·v_j |
| `ChimeraConservative.AssignedAt` | applications/ChimeraApplication/custom_processes/apply_chimera_process_FractionalStep.h:1200-1214 | with distinct equation ids each slave's constant is filed under its equation id, and every other id keeps its entry |
| `ChimeraConservative.AddedTo` | applications/ChimeraApplication/custom_processes/apply_chimera_process_FractionalStep.h:1237-1238 | adding the constant changes exactly the slave's component of the buffer, by the constant |
| `ChimeraConservative.Shifted` | applications/ChimeraApplication/custom_processes/apply_chimera_process_FractionalStep.h:1225-1244 | ApplyConservativeCorrections keeps the number of nodes and their positions |
| `ChimeraConservative.ShiftedAt` | applications/ChimeraApplication/custom_processes/apply_chimera_process_FractionalStep.h:1227-1240 | a DoF listed once among the slaves gains its filed constant in buffers 0 and 1; every other DoF and every other nodal field keeps its value |
| `ChimeraConservative.ShiftedValues` | applications/ChimeraApplication/custom_processes/apply_chimera_process_FractionalStep.h:1225-1244 | the slave values after the shift are the old values plus the constants filed for them |
| `ChimeraConservative.CorrectedFluxIsZero` | applications/ChimeraApplication/custom_processes/apply_chimera_process_FractionalStep.h:1156-1244 | zero flux: when RtMinvR is Σ n²/M over the slaves and nonzero and the equation ids are distinct, the corrected slave values carry no flux, Σ n_k·v_k = 0 |
| `ChimeraConservative.BoundaryRtMinvRIsSlaveRtMinvR` | applications/ChimeraApplication/custom_processes/apply_chimera_process_FractionalStep.h:811-834 | when the slaves are exactly the boundary nodes' velocity DoFs, each once, the Rt·M⁻¹·R accumulated over the boundary equals Σ n²/M over the slaves in iteration order, and every slave's mass is nonzero |
| `ChimeraConservative.BoundaryRtMinvRAsSum` | applications/ChimeraApplication/custom_processes/apply_chimera_process_FractionalStep.h:812-828 | the accumulated Rt·M⁻¹·R is the sum of n²/M over the boundary nodes' velocity DoFs, node by node |
| `ChimeraConservative.SlaveRtMinvRAsSum` | applications/ChimeraApplication/custom_processes/apply_chimera_process_FractionalStep.h:1172-1198 | Σ n²/M over the slaves' stored normals and masses is the sum of n²/M over the slave DoFs |
| `ChimeraConservative.DofSumReorder` | applications/ChimeraApplication/custom_processes/apply_chimera_process_FractionalStep.h:1156-1198 | a sum over DoFs does not depend on the iteration order of the constraint map: two duplicate-free key lists with the same members have the same sum |
| `ChimeraProcess.Process.CorrectionHasZeroFlux` | applications/ChimeraApplication/custom_processes/apply_chimera_process_FractionalStep.h:801-835 | when the slaves are exactly the boundary nodes' velocity DoFs, each once, with distinct equation ids, a correction that does not stop leaves zero flux over the slaves |
| `ChimeraCorrection.CorrectionFactorsExtends` | applications/ChimeraApplication/custom_processes/apply_chimera_process_FractionalStep.h:1178-1190 | one more visit of the inner loop keeps the constant equal to −n_k/d times the flux of the visited slaves |
| `ChimeraCorrection.CorrectionFactors` | applications/ChimeraApplication/custom_processes/apply_chimera_process_FractionalStep.h:1178-1190 | the inner loop's running sum factors: after j visits it is −n_k/d times Σ_{i<j} n_i·v_i |
| `ChimeraCorrection.Constant` | applications/ChimeraApplication/custom_processes/apply_chimera_process_FractionalStep.h:1168-1192 | the constant of slave k is (−flux/RtMinvR)·(n_k/M_k) |
| `ChimeraCorrection.ConstantOfLoop` | applications/ChimeraApplication/custom_processes/apply_chimera_process_FractionalStep.h:1168-1192 | the full inner loop for slave k, with divisor M_k·RtMinvR, yields that constant |
| `ChimeraCorrection.Corrections` | applications/ChimeraApplication/custom_processes/apply_chimera_process_FractionalStep.h:1168-1195 | one constant per slave, each the same multiple −flux/RtMinvR of n_k/M_k |
| `ChimeraCorrection.Corrected` | applications/ChimeraApplication/custom_processes/apply_chimera_process_FractionalStep.h:1237-1238 | each slave value gains its own constant |
| `ChimeraCorrection.FluxAdds` | applications/ChimeraApplication/custom_processes/apply_chimera_process_FractionalStep.h:1237-1238 | the flux of the corrected values is the old flux plus the flux of the constants |
| `ChimeraCorrection.FluxOfScaled` | applications/ChimeraApplication/custom_processes/apply_chimera_process_FractionalStep.h:804-825 | values proportional to n_k/M_k carry a flux proportional to Σ n_k²/M_k, the Rt·M⁻¹·R the coupling accumulates |
| `ChimeraCorrection.ZeroFlux` | applications/ChimeraApplication/custom_processes/apply_chimera_process_FractionalStep.h:1156-1244 | when RtMinvR equals Σ n_k²/M_k over the slaves and is not zero, the corrected values carry zero flux through the boundary |
| `ChimeraNormals.Centre` | applications/ChimeraApplication/custom_processes/apply_chimera_process_FractionalStep.h:1050-1056 | the centre exists exactly when the boundary has nodes, and then the node count times the centre is the sum of the node positions |
| `ChimeraNormals.ToCentre` | applications/ChimeraApplication/custom_processes/apply_chimera_process_FractionalStep.h:1108-1110 | the vector from a condition's first node to the centre exists exactly when the centre is a number |
| `ChimeraNormals.Oriented` | applications/ChimeraApplication/custom_processes/apply_chimera_process_FractionalStep.h:1113-1119 | with sign 1 the normal points away from the centre, with sign −1 towards it, and its length is kept; with no centre it is the area normal times sign |
| `ChimeraNormals.OrientationFacts` | applications/ChimeraApplication/custom_processes/apply_chimera_process_FractionalStep.h:1113-1119 | the negation for a positive dot product and the multiplication by sign give those orientations and keep the length |
| `ChimeraNormals.OrientedIsIdempotent` | applications/ChimeraApplication/custom_processes/apply_chimera_process_FractionalStep.h:1113-1119 | orienting an oriented normal again with sign 1 changes nothing |
| `ChimeraNormals.OrientedEdgeIgnoresNodeOrder` | applications/ChimeraApplication/custom_processes/apply_chimera_process_FractionalStep.h:1101-1122 | the oriented normal of a two-node condition does not depend on the order of its nodes, unless the centre lies on the line of the edge |
| `ChimeraNormals.ConditionNormal` | applications/ChimeraApplication/custom_processes/apply_chimera_process_FractionalStep.h:1058-1080 | in 2D a two-node condition, and in 3D a three-node condition, gets its area normal oriented against the centre; any other condition keeps its NORMAL; the geometry is kept |
| `ChimeraNormals.ConditionNormals` | applications/ChimeraApplication/custom_processes/apply_chimera_process_FractionalStep.h:1058-1080 | every condition becomes its ConditionNormal image |
| `ChimeraNormals.AddMass` | applications/ChimeraApplication/custom_processes/apply_chimera_process_FractionalStep.h:1091-1095 | one condition's node loop keeps the number of nodal masses |
| `ChimeraNormals.DistributeMass` | applications/ChimeraApplication/custom_processes/apply_chimera_process_FractionalStep.h:1082-1096 | the distribution loop keeps the number of nodal masses |
| `ChimeraNormals.DistributeMassStep` | applications/ChimeraApplication/custom_processes/apply_chimera_process_FractionalStep.h:1082-1096 | the loop over the conditions is the last condition's turn after the loop over the others |
| `ChimeraNormals.TotalMassStep` | applications/ChimeraApplication/custom_processes/apply_chimera_process_FractionalStep.h:1082-1096 | a node's total gain is its gain from the earlier conditions plus its gain from the last |
| `ChimeraNormals.AddMassAdds` | applications/ChimeraApplication/custom_processes/apply_chimera_process_FractionalStep.h:1091-1095 | a condition adds coeff·(norm of its normal) to a node once for every time the node occurs in its geometry |
| `ChimeraNormals.AddConditionMass` | applications/ChimeraApplication/custom_processes/apply_chimera_process_FractionalStep.h:1085-1095 | one condition's turn adds its share of the norm of its normal to a node |
| `ChimeraNormals.DistributeMassLast` | applications/ChimeraApplication/custom_processes/apply_chimera_process_FractionalStep.h:1082-1096 | the last condition's turn adds its share to a node |
| `ChimeraNormals.DistributeMassAdds` | applications/ChimeraApplication/custom_processes/apply_chimera_process_FractionalStep.h:1082-1096 | after the distribution each node holds its old NODAL_MASS plus its equal shares of every condition's area |
| `ChimeraNormals.UntouchedNodeGainsNoMass` | applications/ChimeraApplication/custom_processes/apply_chimera_process_FractionalStep.h:1082-1096 | a node that belongs to no condition gains no mass |
| `ChimeraNormals.TotalMassIsNonnegative` | applications/ChimeraApplication/custom_processes/apply_chimera_process_FractionalStep.h:1082-1096 | with a non-negative norm the distribution never takes mass away |
| `ChimeraLevels.PatchRow` | applications/ChimeraApplication/custom_processes/apply_chimera_process_FractionalStep.h:858-873 | the innermost loop formulates one pairing per patch entry |
| `ChimeraLevels.PatchRowMembers` | applications/ChimeraApplication/custom_processes/apply_chimera_process_FractionalStep.h:858-873 | a pairing is in the innermost loop exactly when it names this background entry, this patch level, a patch entry below n and the sign of this background level |
| `ChimeraLevels.PatchLevelsMembers` | applications/ChimeraApplication/custom_processes/apply_chimera_process_FractionalStep.h:856-874 | the patch-level loop pairs one background entry with exactly the entries of the levels strictly above the background level |
| `ChimeraLevels.BackgroundRowMembers` | applications/ChimeraApplication/custom_processes/apply_chimera_process_FractionalStep.h:854-875 | the background-entry loop pairs exactly the first n entries of one background level with every entry of every higher level |
| `ChimeraLevels.PairingsMembers` | applications/ChimeraApplication/custom_processes/apply_chimera_process_FractionalStep.h:852-876 | after the first end background levels, exactly the formulated pairings whose background level is below end have been visited |
| `ChimeraLevels.AllPairings` | applications/ChimeraApplication/custom_processes/apply_chimera_process_FractionalStep.h:852-876 | DoChimeraLoop formulates exactly the pairings of an entry of one level with an entry of a higher level, with MainDomainOrNot −1 for background level 0 and 1 otherwise |
| `ChimeraLevels.PrefixAfter` | applications/ChimeraApplication/custom_processes/apply_chimera_process_FractionalStep.h:852-876 | extending two sequences, one a prefix of the other, by the same front keeps the prefix relation |
| `ChimeraLevels.PatchRowPrefix` | applications/ChimeraApplication/custom_processes/apply_chimera_process_FractionalStep.h:858-873 | the innermost loop formulates its pairings in an order that a longer loop continues |
| `ChimeraLevels.PatchLevelsPrefix` | applications/ChimeraApplication/custom_processes/apply_chimera_process_FractionalStep.h:856-874 | the patch-level loop formulates its pairings in an order that a longer loop continues |
| `ChimeraLevels.BackgroundRowPrefix` | applications/ChimeraApplication/custom_processes/apply_chimera_process_FractionalStep.h:854-875 | the background-entry loop formulates its pairings in an order that a longer loop continues |
| `ChimeraLevels.PairingsPrefix` | applications/ChimeraApplication/custom_processes/apply_chimera_process_FractionalStep.h:852-876 | the level loop formulates its pairings in an order that a longer loop continues |
| `ChimeraLevels.PatchLevelsNext` | applications/ChimeraApplication/custom_processes/apply_chimera_process_FractionalStep.h:856-874 | one more patch level appends its row of pairings |
| `ChimeraLevels.BackgroundRowNext` | applications/ChimeraApplication/custom_processes/apply_chimera_process_FractionalStep.h:854-875 | one more background entry appends its pairings with all higher levels |
| `ChimeraLevels.PairingsNext` | applications/ChimeraApplication/custom_processes/apply_chimera_process_FractionalStep.h:852-876 | one more background level appends its row |
| `MpcConstraints.InsertEffect` | applications/ChimeraApplication/custom_processes/apply_chimera_process_FractionalStep.h:1331-1333 | after AddConstraint the slave is constrained and has the new edge besides its others; no other slave changes |
| `MpcConstraints.InsertAt` | applications/ChimeraApplication/custom_processes/apply_chimera_process_FractionalStep.h:1331-1333 | the same, for one DoF key |
| `MpcConstraints.RemoveEffect` | applications/ChimeraApplication/custom_processes/apply_chimera_process_FractionalStep.h:1335-1338 | after RemoveConstraint the slave has no master and no other slave changes |
| `MpcConstraints.InsertThenRemove` | applications/ChimeraApplication/custom_processes/apply_chimera_process_FractionalStep.h:1331-1338 | adding an edge and then removing its slave is removing the slave |
| `MpcConstraints.MpcData.constructor` | applications/ChimeraApplication/custom_processes/apply_chimera_process_FractionalStep.h:146-150 | a new store of the given type has no edges, normals or constants, RtMinvR 0, no name, and is inactive |
| `MpcConstraints.MpcData.AddConstraint` | applications/ChimeraApplication/custom_processes/apply_chimera_process_FractionalStep.h:1331-1333 | the edge master → slave with the weight and constant is inserted |
| `MpcConstraints.MpcData.RemoveConstraint` | applications/ChimeraApplication/custom_processes/apply_chimera_process_FractionalStep.h:1335-1338 | every edge of the slave is removed |
| `MpcConstraints.MpcData.AddNodalNormalToSlaveDof` | applications/ChimeraApplication/custom_processes/apply_chimera_process_FractionalStep.h:1340-1343 | the slave's nodal-normal component is (over)written |
| `MpcConstraints.MpcData.Clear` | applications/ChimeraApplication/custom_processes/apply_chimera_process_FractionalStep.h:206-215 | the store forgets its edges, normals and constants |
| `MpcConstraints.MpcData.SetName` | applications/ChimeraApplication/custom_processes/apply_chimera_process_FractionalStep.h:152-156 | only the name changes |
| `MpcConstraints.MpcData.SetActive` | applications/ChimeraApplication/custom_processes/apply_chimera_process_FractionalStep.h:1349-1356 | only the active flag changes |
| `MpcConstraints.MpcData.SetIsWeak` | applications/ChimeraApplication/custom_processes/apply_chimera_process_FractionalStep.h:960-965 | only the IsWeak flag changes |
| `MpcConstraints.MpcData.SetVelocityOrPressure` | applications/ChimeraApplication/custom_processes/apply_chimera_process_FractionalStep.h:164-168 | only the velocity-or-pressure mark changes |
| `MpcConstraints.MpcData.SetType` | applications/ChimeraApplication/custom_processes/apply_chimera_process_FractionalStep.h:1011-1015 | only the type changes |
| `NormalCalculationUtils.GeometriesOf` | kratos/utilities/normal_calculation_utils.cpp:46-50 | the geometries of the conditions, in order |
| `NormalCalculationUtils.TouchedStep` | kratos/utilities/normal_calculation_utils.cpp:46-50 | one more geometry touches its own nodes in addition to those touched before |
| `NormalCalculationUtils.Normal2DIsPerpendicular` | kratos/utilities/normal_calculation_utils.cpp:241-254 | the 2D normal is perpendicular to its edge, lies in the plane and is as long as the edge |
| `NormalCalculationUtils.Normal3DIsPerpendicular` | kratos/utilities/normal_calculation_utils.cpp:259-281 | the 3D normal is perpendicular to both edges of the triangle |
| `NormalCalculationUtils.Normal2DOfReversedEdge` | kratos/utilities/normal_calculation_utils.cpp:248-250 | exchanging the end points of an edge negates its 2D normal |
| `NormalCalculationUtils.SimplexNormal` | kratos/utilities/normal_calculation_utils.cpp:143-156 | a condition whose point count does not fit the dimension keeps its NORMAL |
| `NormalCalculationUtils.AddShare` | kratos/utilities/normal_calculation_utils.cpp:161-165 | adding one condition's shares keeps the number of nodes |
| `NormalCalculationUtils.Distribute` | kratos/utilities/normal_calculation_utils.cpp:159-166 | the distribution keeps the number of nodes |
| `NormalCalculationUtils.ShareStep` | kratos/utilities/normal_calculation_utils.cpp:163-164 | one more occurrence of a node in a condition adds one more share of coeff |
| `NormalCalculationUtils.OccurrencesZero` | kratos/utilities/normal_calculation_utils.cpp:163-164 | a node receives no share from a condition exactly when it is not one of its nodes |
| `NormalCalculationUtils.SharesAddUp` | kratos/utilities/normal_calculation_utils.cpp:164 | two shares of the same normal add up to their sum times that normal |
| `NormalCalculationUtils.AddShareAdds` | kratos/utilities/normal_calculation_utils.cpp:161-165 | one condition adds coeff·normal to a node once per occurrence |
| `NormalCalculationUtils.DistributeAddsShares` | kratos/utilities/normal_calculation_utils.cpp:159-166 | after the distribution each node holds its old NORMAL plus its shares of every condition normal |
| `NormalCalculationUtils.UntouchedNodeGetsNothing` | kratos/utilities/normal_calculation_utils.cpp:159-166 | a node on no condition receives nothing |
| `NormalCalculationUtils.SwapFirstTwo` | kratos/utilities/normal_calculation_utils.cpp:204-207 | the first two nodes exchange places and the rest stay |
| `NormalCalculationUtils.SwapTwiceRestores` | kratos/utilities/normal_calculation_utils.cpp:199-211 | swapping twice restores every condition |
| `NormalCalculationUtils.SwappedEdgeHasOppositeNormal` | kratos/utilities/normal_calculation_utils.cpp:199-211 | a swapped two-node condition gets the opposite 2D normal when recomputed |
| `NormalCalculationUtils.SquareOfQuotient` | kratos/utilities/normal_calculation_utils.cpp:230 | (a/d)² = a²/d² for a nonzero d |
| `NormalCalculationUtils.DivideByLengthIsUnit` | kratos/utilities/normal_calculation_utils.cpp:228-230 | dividing by the Euclidean length gives a vector of unit length |
| `NormalCalculationUtils.Normalized` | kratos/utilities/normal_calculation_utils.cpp:227-231 | normalising keeps the position and the INTERFACE flag, and changes nothing when the norm is at most epsilon |
| `NormalCalculationUtils.SimplexNormalSamePositions` | kratos/utilities/normal_calculation_utils.cpp:143-156 | the recomputed condition normal reads only positions, which the reset keeps |
| `NormalCalculationUtils.ModelPart.constructor` | kratos/utilities/normal_calculation_utils.cpp:26-52 | the model part holds the given nodes, conditions, elements and DOMAIN_SIZE |
| `NormalCalculationUtils.ModelPart.ZeroNormalsOn` | kratos/utilities/normal_calculation_utils.cpp:46-50 | NORMAL is zero on exactly the nodes of the geometries; every other node stays |
| `NormalCalculationUtils.ModelPart.InitializeConditionNormals` | kratos/utilities/normal_calculation_utils.cpp:26-52 | the serial branch zeroes NORMAL on exactly the condition nodes |
| `NormalCalculationUtils.ModelPart.InitializeElementNormals` | kratos/utilities/normal_calculation_utils.cpp:58-84 | the serial branch zeroes NORMAL on exactly the element nodes |
| `NormalCalculationUtils.ModelPart.CalculateConditionNormals` | kratos/utilities/normal_calculation_utils.cpp:89-94 | CalculateNormals<Condition> only initialises: condition nodes get a zero NORMAL, other nodes stay |
| `NormalCalculationUtils.ModelPart.CalculateElementNormals` | kratos/utilities/normal_calculation_utils.cpp:99-104 | CalculateNormals<Element> only initialises: element nodes get a zero NORMAL, other nodes stay |
| `NormalCalculationUtils.ModelPart.AddConditionShare` | kratos/utilities/normal_calculation_utils.cpp:160-165 | one condition's turn adds normal/size to each of its nodes per occurrence |
| `NormalCalculationUtils.ModelPart.DistributeConditionNormals` | kratos/utilities/normal_calculation_utils.cpp:159-166 | every node's NORMAL becomes Distribute of the old normals |
| `NormalCalculationUtils.ModelPart.CalculateOnSimplexConditions` | kratos/utilities/normal_calculation_utils.cpp:135-171 | every condition's NORMAL becomes its SimplexNormal, and every node's NORMAL grows by its total share |
| `NormalCalculationUtils.ModelPart.CalculateOnSimplex` | kratos/utilities/normal_calculation_utils.cpp:176-194 | raises exactly when DOMAIN_SIZE is present and the dimension is 0, leaving only the reset. Otherwise it uses DOMAIN_SIZE when present and the dimension when not; it recomputes the condition normals and gives each node its reset NORMAL plus its shares |
| `NormalCalculationUtils.ModelPart.SwapNormals` | kratos/utilities/normal_calculation_utils.cpp:199-211 | every condition's first two nodes exchange places; nodes stay |
| `NormalCalculationUtils.ModelPart.ComputeUnitNormalsFromAreaNormals` | kratos/utilities/normal_calculation_utils.cpp:216-236 | raises exactly when some INTERFACE node has a norm at most epsilon; then the nodes before the first one are normalised and the rest stay. Otherwise every node is normalised |
| `NormalCalculationUtils.ModelPart.CalculateConditionUnitNormals` | kratos/utilities/normal_calculation_utils.cpp:109-117 | after the reset of the condition nodes, completes exactly when no reset node is rejected, and then every node is normalised |
| `NormalCalculationUtils.ModelPart.CalculateElementUnitNormals` | kratos/utilities/normal_calculation_utils.cpp:122-130 | the same with the element nodes |
| `GeometryUtilities.QuadNormalIsSumOfTriangles` | applications/ShapeOptimizationApplication/custom_utilities/geometry_utilities.h:411-428 | the quadrilateral's half cross product of its diagonals is the sum of the normals of its two triangles |
| `GeometryUtilities.QuadNormalIsPerpendicular` | applications/ShapeOptimizationApplication/custom_utilities/geometry_utilities.h:411-428 | the quadrilateral's normal is perpendicular to both diagonals |
| `GeometryUtilities.AreaNormal` | applications/ShapeOptimizationApplication/custom_utilities/geometry_utilities.h:338-362 | a condition raises exactly when the dimension is 3 and it is neither a triangle nor a quadrilateral; outside 2D edges and 3D it keeps its NORMAL |
| `GeometryUtilities.AreaNormalAgreesOnSimplices` | applications/ShapeOptimizationApplication/custom_utilities/geometry_utilities.h:378-408 | on 2D edges and 3D triangles the area normal is the one the kernel's normal utilities compute |
| `GeometryUtilities.AreaNormalSamePositions` | applications/ShapeOptimizationApplication/custom_utilities/geometry_utilities.h:331-362 | the computed normal reads only node positions, so resetting nodal normals first does not change it |
| `GeometryUtilities.UnitNormal` | applications/ShapeOptimizationApplication/custom_utilities/geometry_utilities.h:437 | the division gives not-a-number exactly when the norm is zero |
| `GeometryUtilities.UnitNormalHasUnitLength` | applications/ShapeOptimizationApplication/custom_utilities/geometry_utilities.h:431-439 | with the Euclidean norm, a non-zero area normal gives a finite normal of unit length |
| `GeometryUtilities.ProjectField` | applications/ShapeOptimizationApplication/custom_utilities/geometry_utilities.h:154-156 | the projection is finite exactly when the variable and the unit normal are |
| `GeometryUtilities.ProjectionIsParallel` | applications/ShapeOptimizationApplication/custom_utilities/geometry_utilities.h:154-156 | (v·n) n is parallel to n |
| `GeometryUtilities.ProjectionIsIdempotent` | applications/ShapeOptimizationApplication/custom_utilities/geometry_utilities.h:144-160 | onto a unit normal, projecting twice is projecting once |
| `GeometryUtilities.ProjectionRemainderIsPerpendicular` | applications/ShapeOptimizationApplication/custom_utilities/geometry_utilities.h:154-156 | what the projection removes is perpendicular to the unit normal |
| `GeometryUtilities.ProjectFieldIsIdempotent` | applications/ShapeOptimizationApplication/custom_utilities/geometry_utilities.h:144-160 | on a node whose unit normal is not-a-number or of unit length, projecting twice is projecting once |
| `GeometryUtilities.Insert` | applications/ShapeOptimizationApplication/custom_utilities/geometry_utilities.h:197 | inserting into a sorted key keeps it sorted, adds one entry and no element other than the inserted one |
| `GeometryUtilities.InsertAddsOne` | applications/ShapeOptimizationApplication/custom_utilities/geometry_utilities.h:197 | insertion adds exactly the inserted id to the multiset of ids |
| `GeometryUtilities.SortKey` | applications/ShapeOptimizationApplication/custom_utilities/geometry_utilities.h:196-197 | std::sort's result is sorted |
| `GeometryUtilities.SortKeyIsPermutation` | applications/ShapeOptimizationApplication/custom_utilities/geometry_utilities.h:196-197 | the key holds the face's ids, each as often as the face does |
| `GeometryUtilities.SortedHeadIsLeast` | applications/ShapeOptimizationApplication/custom_utilities/geometry_utilities.h:196-197 | the first entry of a sorted key is its least |
| `GeometryUtilities.SortedPermutationsAreEqual` | applications/ShapeOptimizationApplication/custom_utilities/geometry_utilities.h:196-200 | two sorted keys with the same ids are equal |
| `GeometryUtilities.SameNodesSameKey` | applications/ShapeOptimizationApplication/custom_utilities/geometry_utilities.h:196-200 | faces with the same nodes in any order have the same key, so the map counts them together |
| `GeometryUtilities.FaceKeys` | applications/ShapeOptimizationApplication/custom_utilities/geometry_utilities.h:187-201 | one key per face, the sorted ids of that face |
| `GeometryUtilities.CountPositive` | applications/ShapeOptimizationApplication/custom_utilities/geometry_utilities.h:200-211 | a key has a positive count exactly when it is one of the faces |
| `GeometryUtilities.KeysExtend` | applications/ShapeOptimizationApplication/custom_utilities/geometry_utilities.h:183-202 | one more element adds its faces' keys to those seen |
| `GeometryUtilities.FaceKeysExtend` | applications/ShapeOptimizationApplication/custom_utilities/geometry_utilities.h:187-201 | one more face adds its key |
| `GeometryUtilities.TalliesExtend` | applications/ShapeOptimizationApplication/custom_utilities/geometry_utilities.h:200 | n_faces_map[ids] += 1, starting a missing key at zero, keeps every key's count equal to its number of occurrences |
| `GeometryUtilities.KeysEqual` | applications/ShapeOptimizationApplication/custom_utilities/geometry_utilities.h:83-95 | KeyComparor is true exactly for equal keys, and keys of different length differ |
| `GeometryUtilities.CountElementFaces` | applications/ShapeOptimizationApplication/custom_utilities/geometry_utilities.h:185-201 | one element's faces are added to the tally |
| `GeometryUtilities.CountFaces` | applications/ShapeOptimizationApplication/custom_utilities/geometry_utilities.h:180-202 | the map counts every key as often as it occurs among all elements' faces |
| `GeometryUtilities.GatheredExtend` | applications/ShapeOptimizationApplication/custom_utilities/geometry_utilities.h:208-216 | one more map entry appends its ids exactly when its count is one |
| `GeometryUtilities.SingleFaceNodes` | applications/ShapeOptimizationApplication/custom_utilities/geometry_utilities.h:204-216 | over the whole map, the gathered ids are those of the keys counted once |
| `GeometryUtilities.GatheredIsSurface` | applications/ShapeOptimizationApplication/custom_utilities/geometry_utilities.h:204-219 | an id is gathered exactly when it is on a face that no other face shares |
| `GeometryUtilities.Utilities.constructor` | applications/ShapeOptimizationApplication/custom_utilities/geometry_utilities.h:109-112 | the utility refers to the given model part |
| `GeometryUtilities.Utilities.ResetConditionNodeNormals` | applications/ShapeOptimizationApplication/custom_utilities/geometry_utilities.h:327-336 | NORMAL is zero on exactly the nodes of the conditions; everything else stays |
| `GeometryUtilities.Utilities.ComputeConditionNormals` | applications/ShapeOptimizationApplication/custom_utilities/geometry_utilities.h:338-362 | completes exactly when every condition is supported; each condition's NORMAL is then its AreaNormal. On a raise, the conditions before the first unsupported one are recomputed and the rest are unchanged |
| `GeometryUtilities.Utilities.AddConditionNormals` | applications/ShapeOptimizationApplication/custom_utilities/geometry_utilities.h:364-372 | every node's NORMAL grows by its total share normal/size of the conditions it is on |
| `GeometryUtilities.Utilities.CalculateAreaNormals` | applications/ShapeOptimizationApplication/custom_utilities/geometry_utilities.h:323-375 | completes exactly when every condition is supported. Each condition then holds its AreaNormal, and each node holds its reset NORMAL plus its shares. A raise leaves only the reset |
| `GeometryUtilities.Utilities.CalculateUnitNormals` | applications/ShapeOptimizationApplication/custom_utilities/geometry_utilities.h:431-439 | every node's NORMALIZED_SURFACE_NORMAL is its NORMAL divided by its norm |
| `GeometryUtilities.Utilities.ComputeUnitSurfaceNormals` | applications/ShapeOptimizationApplication/custom_utilities/geometry_utilities.h:130-141 | a two-node first condition in 3D raises and changes nothing; otherwise the area normals, then the unit normals of them |
| `GeometryUtilities.Utilities.ProjectNodalVariableOnUnitSurfaceNormals` | applications/ShapeOptimizationApplication/custom_utilities/geometry_utilities.h:144-160 | every node's variable becomes (v·n) n for its unit normal n |
| `GeometryUtilities.Utilities.ExtractSurfaceNodes` | applications/ShapeOptimizationApplication/custom_utilities/geometry_utilities.h:163-222 | an existing sub-model part changes nothing. Otherwise a new one holds exactly the nodes on faces that only one element has, and other sub-model parts stay |
| `EigenfrequencyResponseFunctionUtility.TracedIds` | applications/StructuralMechanicsApplication/custom_response_functions/response_utilities/eigenfrequency_response_function_utility.h:199-212 | an array setting gives its ids in order; a scalar gives the one-element list |
| `EigenfrequencyResponseFunctionUtility.LinearWeights` | applications/StructuralMechanicsApplication/custom_response_functions/response_utilities/eigenfrequency_response_function_utility.h:229-247 | one weight per factor |
| `EigenfrequencyResponseFunctionUtility.SumOfScaled` | applications/StructuralMechanicsApplication/custom_response_functions/response_utilities/eigenfrequency_response_function_utility.h:242-243 | dividing every weight by s divides their sum by s |
| `EigenfrequencyResponseFunctionUtility.LinearWeightsAreNormalized` | applications/StructuralMechanicsApplication/custom_response_functions/response_utilities/eigenfrequency_response_function_utility.h:239-247 | the weights sum to one within 1e-12, and to exactly one when they were rescaled |
| `EigenfrequencyResponseFunctionUtility.MaxId` | applications/StructuralMechanicsApplication/custom_response_functions/response_utilities/eigenfrequency_response_function_utility.h:260 | the largest traced id is one of the ids and no id exceeds it |
| `EigenfrequencyResponseFunctionUtility.GetEigenvalue` | applications/StructuralMechanicsApplication/custom_response_functions/response_utilities/eigenfrequency_response_function_utility.h:333-337 | id k reads entry k−1 of EIGENVALUE_VECTOR |
| `EigenfrequencyResponseFunctionUtility.WeightedFrequenciesOfEqualEigenvalues` | applications/StructuralMechanicsApplication/custom_response_functions/response_utilities/eigenfrequency_response_function_utility.h:115-124 | when every traced eigenvalue is the same λ, the response is the sum of the weights times sqrt(λ)/(2π) |
| `EigenfrequencyResponseFunctionUtility.Utility.SeveralTraced` | applications/StructuralMechanicsApplication/custom_response_functions/response_utilities/eigenfrequency_response_function_utility.h:215-221 | true exactly when more than one eigenfrequency is traced |
| `EigenfrequencyResponseFunctionUtility.Utility.CheckSettingsForGradientAnalysis` | applications/StructuralMechanicsApplication/custom_response_functions/response_utilities/eigenfrequency_response_function_utility.h:188-196 | succeeds exactly for gradient_mode "semi_analytic", then stores the step size; the ids and weights are unchanged |
| `EigenfrequencyResponseFunctionUtility.Utility.DetermineTracedEigenfrequencies` | applications/StructuralMechanicsApplication/custom_response_functions/response_utilities/eigenfrequency_response_function_utility.h:199-212 | the traced ids become TracedIds of the setting; nothing else changes |
| `EigenfrequencyResponseFunctionUtility.Utility.CalculateLinearWeights` | applications/StructuralMechanicsApplication/custom_response_functions/response_utilities/eigenfrequency_response_function_utility.h:224-247 | fails unless the factors are present and as many as the traced ids; on success the weights are LinearWeights of the factors; the weight sum is required nonzero only when the factors match the ids and their sum is outside the tolerance |
| `EigenfrequencyResponseFunctionUtility.Utility.ReadWeights` | applications/StructuralMechanicsApplication/custom_response_functions/response_utilities/eigenfrequency_response_function_utility.h:231-237 | the reading loop copies the factors and returns their sum |
| `EigenfrequencyResponseFunctionUtility.Utility.Rescale` | applications/StructuralMechanicsApplication/custom_response_functions/response_utilities/eigenfrequency_response_function_utility.h:240-244 | the scaling loop divides every weight by the sum |
| `EigenfrequencyResponseFunctionUtility.Utility.UseDefaultWeight` | applications/StructuralMechanicsApplication/custom_response_functions/response_utilities/eigenfrequency_response_function_utility.h:250-254 | the weights become the single weight 1.0 |
| `EigenfrequencyResponseFunctionUtility.Utility.Configure` | applications/StructuralMechanicsApplication/custom_response_functions/response_utilities/eigenfrequency_response_function_utility.h:78-93 | succeeds exactly when the gradient mode is "semi_analytic" and, with several ids traced, the weighting method is "linear_scaling" and there are as many factors as ids; it then stores the step size and the ids, with LinearWeights for several ids and [1.0] for one; the weight sum is required nonzero only on the linear_scaling path with matching factors and a sum outside the tolerance |
| `EigenfrequencyResponseFunctionUtility.Utility.CheckIfAllNecessaryEigenvaluesAreComputed` | applications/StructuralMechanicsApplication/custom_response_functions/response_utilities/eigenfrequency_response_function_utility.h:257-262 | fails exactly when the largest traced id exceeds the number of computed eigenvalues |
| `EigenfrequencyResponseFunctionUtility.Utility.CalculateValue` | applications/StructuralMechanicsApplication/custom_response_functions/response_utilities/eigenfrequency_response_function_utility.h:115-124 | fails exactly as the check does; otherwise returns Σ w_i·sqrt(λ_{id_i})/(2π) over the traced ids |
| `EigenfrequencyResponseFunctionUtility.RowStartIsProduct` | applications/StructuralMechanicsApplication/custom_response_functions/response_utilities/eigenfrequency_response_function_utility.h:352 | the start of node n's entries is num_node_dofs·n, as in the index expression |
| `EigenfrequencyResponseFunctionUtility.NextRowStart` | applications/StructuralMechanicsApplication/custom_response_functions/response_utilities/eigenfrequency_response_function_utility.h:347-353 | a node's entries end no later than where any later node's entries start |
| `EigenfrequencyResponseFunctionUtility.DofsPerNodeIsQuotient` | applications/StructuralMechanicsApplication/custom_response_functions/response_utilities/eigenfrequency_response_function_utility.h:345 | num_node_dofs is the integer quotient of the vector size by the number of nodes |
| `EigenfrequencyResponseFunctionUtility.RowsFit` | applications/StructuralMechanicsApplication/custom_response_functions/response_utilities/eigenfrequency_response_function_utility.h:344-353 | every node's entries lie inside the resized vector |
| `EigenfrequencyResponseFunctionUtility.SlotsAreDistinct` | applications/StructuralMechanicsApplication/custom_response_functions/response_utilities/eigenfrequency_response_function_utility.h:352 | distinct (node, DoF) pairs are written to distinct entries below the end of the last node's entries |
| `EigenfrequencyResponseFunctionUtility.CopyRow` | applications/StructuralMechanicsApplication/custom_response_functions/response_utilities/eigenfrequency_response_function_utility.h:351-352 | the DoF loop writes the row's first num_node_dofs values from the node's start, and nothing else |
| `EigenfrequencyResponseFunctionUtility.DetermineEigenvectorOfElement` | applications/StructuralMechanicsApplication/custom_response_functions/response_utilities/eigenfrequency_response_function_utility.h:340-354 | the result has the requested size, and entry dof + num_node_dofs·node is entry (id−1, dof) of that node's EIGENVECTOR_MATRIX |
| `RefineMeshElementsOnThresholdProcess.Refined` | applications/DelaunayMeshingApplication/custom_processes/refine_mesh_elements_on_threshold_process.hpp:241-251 | a node gets TO_REFINE exactly when it had it or it is not BOUNDARY and lies on an element strictly over the threshold; BOUNDARY nodes and set flags stay |
| `RefineMeshElementsOnThresholdProcess.CountOverBounds` | applications/DelaunayMeshingApplication/custom_processes/refine_mesh_elements_on_threshold_process.hpp:219-251 | the counter is at most the number of elements, and zero exactly when no element is over the threshold |
| `RefineMeshElementsOnThresholdProcess.MaxValueIsMaximum` | applications/DelaunayMeshingApplication/custom_processes/refine_mesh_elements_on_threshold_process.hpp:216-236 | max_value is at least 0 and every element value; it is 0 or one of the values |
| `RefineMeshElementsOnThresholdProcess.MarkedByExtend` | applications/DelaunayMeshingApplication/custom_processes/refine_mesh_elements_on_threshold_process.hpp:221-253 | one more element marks its nodes exactly when it is over the threshold |
| `RefineMeshElementsOnThresholdProcess.NothingOverThresholdChangesNothing` | applications/DelaunayMeshingApplication/custom_processes/refine_mesh_elements_on_threshold_process.hpp:241-251 | with no element over the threshold no flag changes |
| `RefineMeshElementsOnThresholdProcess.Process.constructor` | applications/DelaunayMeshingApplication/custom_processes/refine_mesh_elements_on_threshold_process.hpp:65-72 | the process refers to the given model part and meshing options |
| `RefineMeshElementsOnThresholdProcess.Process.MarkElementNodes` | applications/DelaunayMeshingApplication/custom_processes/refine_mesh_elements_on_threshold_process.hpp:244-249 | the non-BOUNDARY nodes of one geometry get TO_REFINE; the other nodes stay |
| `RefineMeshElementsOnThresholdProcess.Process.SetNodesToRefine` | applications/DelaunayMeshingApplication/custom_processes/refine_mesh_elements_on_threshold_process.hpp:210-269 | every node becomes Refined; the counter is the number of elements over the threshold and max_value the running maximum from 0 |
| `RefineMeshElementsOnThresholdProcess.Process.Execute` | applications/DelaunayMeshingApplication/custom_processes/refine_mesh_elements_on_threshold_process.hpp:96-107 | with nodes added or inserted and refinement on threshold requested, the nodes are marked as SetNodesToRefine does; otherwise nothing changes |
| `AssignNodalElementsToNodes.WithDefaults` | applications/StructuralMechanicsApplication/custom_processes/assign_nodal_elements_to_nodes.cpp:26-95 | a missing key takes its default (`""`, false, true, `"compression_and_tension"`, [0, 1e30], null nodal values); a key that is present keeps its value, except compute_compression_tension, which is always `"compression_and_tension"` because the validated list never receives it |
| `AssignNodalElementsToNodes.WithDefaultsKeepsCompleteParameters` | applications/StructuralMechanicsApplication/custom_processes/assign_nodal_elements_to_nodes.cpp:36-74 | defaulting parameters that already hold every key returns them unchanged except for compute_compression_tension, which becomes `"compression_and_tension"`; defaulting twice is defaulting once |
| `AssignNodalElementsToNodes.CompressionTensionIsAlwaysBoth` | applications/StructuralMechanicsApplication/custom_processes/assign_nodal_elements_to_nodes.cpp:35-43 | whatever the parameters, the defaulted compute_compression_tension selects COMPRESSION_AND_TENSION, since only the other four keys are copied into the validated list |
| `AssignNodalElementsToNodes.VectorProperty` | applications/StructuralMechanicsApplication/custom_processes/assign_nodal_elements_to_nodes.cpp:130-140 | a vector property is set if and only if some component is non-null; null components become 0.0 and the others keep their values |
| `AssignNodalElementsToNodes.NewProperties` | applications/StructuralMechanicsApplication/custom_processes/assign_nodal_elements_to_nodes.cpp:114-184 | the new properties take the next id and NODAL_MASS as given; each of the five vector properties is present exactly when some component was given |
| `AssignNodalElementsToNodes.CompressionTensionOf` | applications/StructuralMechanicsApplication/custom_processes/assign_nodal_elements_to_nodes.cpp:198 | "compression" selects COMPRESSION, "tension" TENSION, and every other string COMPRESSION_AND_TENSION (each direction of each case) |
| `AssignNodalElementsToNodes.RecordInitialValues` | applications/StructuralMechanicsApplication/custom_processes/assign_nodal_elements_to_nodes.cpp:296-304 | an element that holds INITIAL_DISPLACEMENT or INITIAL_ROTATION now holds its node's DISPLACEMENT or ROTATION there; an element without them gains none |
| `AssignNodalElementsToNodes.Step` | applications/StructuralMechanicsApplication/custom_processes/assign_nodal_elements_to_nodes.cpp:283-318 | afterwards the process is ACTIVE exactly when the interval is not the default one; ids are kept; a step that changes anything leaves every element's ACTIVE equal to the process's |
| `AssignNodalElementsToNodes.StepIsIdempotent` | applications/StructuralMechanicsApplication/custom_processes/assign_nodal_elements_to_nodes.cpp:292-315 | a second ExecuteInitializeSolutionStep with the same interval changes nothing |
| `AssignNodalElementsToNodes.StepAfterInitializeAgrees` | applications/StructuralMechanicsApplication/custom_processes/assign_nodal_elements_to_nodes.cpp:283-318 | starting from the inactive state that ExecuteInitialize leaves, every element's ACTIVE equals the process's ACTIVE after the step |
| `AssignNodalElementsToNodes.Process.constructor` | applications/StructuralMechanicsApplication/custom_processes/assign_nodal_elements_to_nodes.cpp:26-95 | the process keeps the model part and the defaulted parameters, with its ACTIVE flag unset; its compute_compression_tension is `"compression_and_tension"` |
| `AssignNodalElementsToNodes.Process.SetElementsActive` | applications/StructuralMechanicsApplication/custom_processes/assign_nodal_elements_to_nodes.cpp:331 | every element's ACTIVE is the given value and nothing else about the elements or properties changes |
| `AssignNodalElementsToNodes.Process.RenumberElements` | applications/StructuralMechanicsApplication/custom_processes/assign_nodal_elements_to_nodes.cpp:186-193 | element i gets id i + 1, in iteration order, and nothing else changes |
| `AssignNodalElementsToNodes.Process.ExecuteInitialize` | applications/StructuralMechanicsApplication/custom_processes/assign_nodal_elements_to_nodes.cpp:110-278 | one properties entry with the next id is appended; elements are renumbered 1..n and not ACTIVE; the reference element carries the settings' damping and flag and the mode COMPRESSION_AND_TENSION; the process is not ACTIVE |
| `AssignNodalElementsToNodes.Process.RecordAllInitialValues` | applications/StructuralMechanicsApplication/custom_processes/assign_nodal_elements_to_nodes.cpp:295-304 | every element is its RecordInitialValues image; the properties are unchanged |
| `AssignNodalElementsToNodes.Process.ExecuteInitializeSolutionStep` | applications/StructuralMechanicsApplication/custom_processes/assign_nodal_elements_to_nodes.cpp:283-318 | the process flag and the elements become Step of the interval and the old state |
| `AssignNodalElementsToNodes.Process.Execute` | applications/StructuralMechanicsApplication/custom_processes/assign_nodal_elements_to_nodes.cpp:100-105 | elements are numbered 1..n; the process is ACTIVE exactly when the interval is not the default; every element's flag equals the process's |
| `AdjointFiniteDifferenceNodalConcentratedElement.ZeroMatrix` | applications/StructuralMechanicsApplication/custom_response_functions/adjoint_elements/adjoint_finite_difference_nodal_concentrated_element.cpp:130 | a rows×cols matrix whose every entry is 0.0 |
| `AdjointFiniteDifferenceNodalConcentratedElement.Unit` | applications/StructuralMechanicsApplication/custom_response_functions/adjoint_elements/adjoint_finite_difference_nodal_concentrated_element.cpp:146-148 | the perturbed stiffness has 1.0 in direction `dir` and 0.0 in the other two |
| `AdjointFiniteDifferenceNodalConcentratedElement.SingleEntry` | applications/StructuralMechanicsApplication/custom_response_functions/adjoint_elements/adjoint_finite_difference_nodal_concentrated_element.cpp:30-34 | the output vector is resized to one entry holding the given value |
| `AdjointFiniteDifferenceNodalConcentratedElement.AdjointElement.constructor` | applications/StructuralMechanicsApplication/custom_response_functions/adjoint_elements/adjoint_finite_difference_nodal_concentrated_element.cpp:21-24 | the element keeps its primal element, nodes and stiffness as given |
| `AdjointFiniteDifferenceNodalConcentratedElement.AdjointElement.GetFirstDerivativesVector` | applications/StructuralMechanicsApplication/custom_response_functions/adjoint_elements/adjoint_finite_difference_nodal_concentrated_element.cpp:26-36 | one entry: ADJOINT_VECTOR_2_X of the node at the step |
| `AdjointFiniteDifferenceNodalConcentratedElement.AdjointElement.GetSecondDerivativesVector` | applications/StructuralMechanicsApplication/custom_response_functions/adjoint_elements/adjoint_finite_difference_nodal_concentrated_element.cpp:38-48 | one entry: ADJOINT_VECTOR_3_X of the node at the step |
| `AdjointFiniteDifferenceNodalConcentratedElement.AdjointElement.GetAuxiliaryVector` | applications/StructuralMechanicsApplication/custom_response_functions/adjoint_elements/adjoint_finite_difference_nodal_concentrated_element.cpp:50-60 | one entry: AUX_ADJOINT_VECTOR_1_X of the node at the step |
| `AdjointFiniteDifferenceNodalConcentratedElement.AdjointElement.GetFirstDerivativesVariables` | applications/StructuralMechanicsApplication/custom_response_functions/adjoint_elements/adjoint_finite_difference_nodal_concentrated_element.cpp:62-71 | the one variable ADJOINT_VECTOR_2 |
| `AdjointFiniteDifferenceNodalConcentratedElement.AdjointElement.GetSecondDerivativesVariables` | applications/StructuralMechanicsApplication/custom_response_functions/adjoint_elements/adjoint_finite_difference_nodal_concentrated_element.cpp:73-82 | the one variable ADJOINT_VECTOR_3 |
| `AdjointFiniteDifferenceNodalConcentratedElement.AdjointElement.GetAuxiliaryVariables` | applications/StructuralMechanicsApplication/custom_response_functions/adjoint_elements/adjoint_finite_difference_nodal_concentrated_element.cpp:84-93 | the one variable AUX_ADJOINT_VECTOR_1 |
| `AdjointFiniteDifferenceNodalConcentratedElement.AdjointElement.CalculateScalarSensitivityMatrix` | applications/StructuralMechanicsApplication/custom_response_functions/adjoint_elements/adjoint_finite_difference_nodal_concentrated_element.cpp:95-112 | succeeds exactly for SCALAR_SENSITIVITY, with the 1×1 matrix holding minus DISPLACEMENT_X of node 0; any other variable is an error |
| `AdjointFiniteDifferenceNodalConcentratedElement.AdjointElement.CalculateVectorSensitivityMatrix` | applications/StructuralMechanicsApplication/custom_response_functions/adjoint_elements/adjoint_finite_difference_nodal_concentrated_element.cpp:114-169 | SHAPE_SENSITIVITY gives a zero (dim·nodes)×(nodes·dim) matrix. A held NODAL_DISPLACEMENT_STIFFNESS gives row i = the primal right-hand side under unit stiffness i, succeeds exactly when every pseudo-load has the local size, and restores the stiffness; otherwise it fails at the first bad direction and leaves that unit stiffness set. Any other variable gives 0×(nodes·dim) |
| `AdjointFiniteDifferenceNodalConcentratedElement.AdjointElement.Check` | applications/StructuralMechanicsApplication/custom_response_functions/adjoint_elements/adjoint_finite_difference_nodal_concentrated_element.cpp:171-203 | 0 exactly when the primal element is set and every node holds ADJOINT_DISPLACEMENT and VOLUME_ACCELERATION and the three adjoint displacement DoFs; an error otherwise |
| `AitkenRelaxationUtility.Aitken.constructor` | applications/FemToDemApplication/custom_utilities/aitken_relaxation_utility.hpp:65-68 | the old relaxation parameter is the argument, 0.825 by default |
| `AitkenRelaxationUtility.Aitken.Copy` | applications/FemToDemApplication/custom_utilities/aitken_relaxation_utility.hpp:73-76 | the copy constructor copies the old relaxation parameter and nothing else |
| `AitkenRelaxationUtility.Aitken.InitializeSolutionStep` | applications/FemToDemApplication/custom_utilities/aitken_relaxation_utility.hpp:94-101 | the iteration counter is 1; the relaxation parameters and the residual pointers are unchanged |
| `AitkenRelaxationUtility.Aitken.UpdateSolution` | applications/FemToDemApplication/custom_utilities/aitken_relaxation_utility.hpp:109-115 | the empty body leaves the iteration guess as it was |
| `AitkenRelaxationUtility.Aitken.FinalizeNonLinearIteration` | applications/FemToDemApplication/custom_utilities/aitken_relaxation_utility.hpp:120-127 | the old and new residual pointers trade places and the unsigned counter goes up by one; the relaxation parameters stay |
| `AitkenRelaxationUtility.Aitken.FinalizeSolutionStep` | applications/FemToDemApplication/custom_utilities/aitken_relaxation_utility.hpp:132-137 | the iteration counter is reset to 1; nothing else changes |
| `AitkenRelaxationUtility.Swap` | applications/FemToDemApplication/custom_utilities/aitken_relaxation_utility.hpp:124 | std::swap gives the old pointer the new vector and the new pointer the old one |
| `AitkenRelaxationUtility.SwapTwiceRestores` | applications/FemToDemApplication/custom_utilities/aitken_relaxation_utility.hpp:124 | two non-linear iterations restore the original assignment of the residual pointers |
| `AitkenRelaxationUtility.Increment` | applications/FemToDemApplication/custom_utilities/aitken_relaxation_utility.hpp:125 | the `unsigned int` counter increases by exactly one below 2^32 and wraps to 0 at 2^32 |
| `KratosSolverWrapper.BatchCount` | applications/MultilevelMonteCarloApplication/external_libraries/XMC/xmc/classDefs_solverWrapper/KratosSolverWrapper.py:75 | for a positive batch size, ceil(n/b) is the least m with n <= m·b |
| `KratosSolverWrapper.OutputDimensions` | applications/MultilevelMonteCarloApplication/external_libraries/XMC/xmc/classDefs_solverWrapper/KratosSolverWrapper.py:72-80 | the list of batch sizes fails exactly when the batch size is zero (a division by zero) |
| `KratosSolverWrapper.OutputDimensionsShape` | applications/MultilevelMonteCarloApplication/external_libraries/XMC/xmc/classDefs_solverWrapper/KratosSolverWrapper.py:74-80 | there are ceil(n/b) batches; each holds between 1 and b outputs and all but the last hold b |
| `KratosSolverWrapper.FullBatchesSum` | applications/MultilevelMonteCarloApplication/external_libraries/XMC/xmc/classDefs_solverWrapper/KratosSolverWrapper.py:77-80 | k full batches hold k·b outputs |
| `KratosSolverWrapper.OutputDimensionsSum` | applications/MultilevelMonteCarloApplication/external_libraries/XMC/xmc/classDefs_solverWrapper/KratosSolverWrapper.py:72-80 | the batches hold exactly the n = number_qoi + number_combined_qoi scalar outputs |
| `KratosSolverWrapper.Serialize` | applications/MultilevelMonteCarloApplication/external_libraries/XMC/xmc/classDefs_solverWrapper/KratosSolverWrapper.py:93-138 | serialize succeeds exactly for the three known refinement strategies and leaves the attributes as they were |
| `KratosSolverWrapper.ConstructResult` | applications/MultilevelMonteCarloApplication/external_libraries/XMC/xmc/classDefs_solverWrapper/KratosSolverWrapper.py:52-90 | the constructor raises exactly when the batch size is zero with no outputDimension given, or when a synchronous wrapper of index >= 0 has an unknown refinement strategy. Otherwise it keeps a given outputDimension or computes the batch sizes, sets an empty index to [0], and different_tasks is not taskAllAtOnce |
| `KratosSolverWrapper.StochasticRefinementLevels` | applications/MultilevelMonteCarloApplication/external_libraries/XMC/xmc/classDefs_solverWrapper/KratosSolverWrapper.py:247-268 | the local indices run are increasing: 0 alone for index 0, every level 0..index without jump-to-finest, and only 0 and index with it |
| `TauFunctions.Digit` | applications/CoSimulationApplication/python_scripts/helpers/tau_functions.py:6 | a decimal digit is one of the characters 0 to 9 |
| `TauFunctions.NatToText` | applications/CoSimulationApplication/python_scripts/helpers/tau_functions.py:6 | '%s' of a natural number is a non-empty string of digits |
| `TauFunctions.IntToText` | applications/CoSimulationApplication/python_scripts/helpers/tau_functions.py:6 | '%s' of an integer starts with a minus sign exactly when it is negative |
| `TauFunctions.NatToTextRoundTrip` | applications/CoSimulationApplication/python_scripts/helpers/tau_functions.py:4-6 | reading the decimal text of a step number back gives the number, so different steps have different prefixes |
| `TauFunctions.FindInterfaceFileName` | applications/CoSimulationApplication/python_scripts/helpers/tau_functions.py:3-8 | returns the first path, in list order, that starts with working_path + '/Outputs/airfoilSol.MEMBRANE_i=' + (step + 1); returns None exactly when no path does |
| `TauFunctions.DataLineCountBounded` | applications/CoSimulationApplication/python_scripts/helpers/tau_functions.py:10-17 | the count is at most the number of lines, and equal to it exactly when every line contains 'E+' or 'E-' |
| `TauFunctions.DataLineCountAppend` | applications/CoSimulationApplication/python_scripts/helpers/tau_functions.py:14-16 | the count over two runs of lines is the sum of their counts |
| `TauFunctions.ContainsText` | applications/CoSimulationApplication/python_scripts/helpers/tau_functions.py:15 | the scan finds the pattern exactly when Python's 'in' does |
| `TauFunctions.FindInterfaceFileNumberOfLines` | applications/CoSimulationApplication/python_scripts/helpers/tau_functions.py:10-17 | returns the number of lines that contain 'E+' or 'E-', at most the number of lines |

## Left out

- Point location, hole cutting and signed distance in the Chimera process (`BinBasedFastPointLocator`, `CustomHoleCuttingProcess`, `CustomCalculateSignedDistanceProcess`) are foreign code. The locator is a function parameter that returns whether a host was found, its nodes and the weights N. Each pairing's cut is given as its hole elements and its patch and hole boundaries.
- Building the bin locators and the modified patch model parts of `FormulateChimera`, and reading `Chimera_levels` and the other parameters in `DoChimeraLoop`, are not modelled. The levels and each pairing's cut are inputs. The loop is given only pairings whose cuts lie inside the main model part.
- VTK and GiD output (`VtkOutput`, `PrintGIDMesh`), `std::cout`, `KRATOS_INFO`, `KRATOS_WARNING` and Python `print` are output only and are left out.
- MpcData's own source is not part of this model. `MpcConstraints` models it from its uses in the Chimera process, as a map from slave DoF to its masters' weights and constants. Its `Clear` is assumed to empty the edges, the nodal normals and the constants, and to keep RtMinvR.
- The conservative correction walks `mDofConstraints`, an unordered map. Its iteration order is an input: a sequence of distinct slave keys. The equation id of a DoF is a function parameter.
- The OpenMP pragmas and the MPI branches are left out: `IsDistributed`, `SynchronizeOrNodalFlags` and `AssembleCurrentData`. Every loop is modelled in its sequential order, and `InitializeNormals` only in its serial branch.
- IEEE semantics are not modelled. Where the source divides by a value that can be zero, there are three treatments:
  - a `requires` excludes the zero: Δt in the mesh-moving strategy, mBDF[0] in the BDF inversion, and the weight sum in `CalculateLinearWeights` and `Configure`, only when the factors match the traced ids and their sum is outside the tolerance, which is where the source divides by it;
  - a `Raised` outcome models the stop: a zero NODAL_MASS in `AttachNormals`, a zero divisor in `CalculateConservativeCorrections`;
  - a `NotANumber` field value models the result: `UnitNormal` in the geometry utilities.
- `sqrt`, `norm_2` and `Norm3` are function parameters, so floating-point rounding and error bounds are not modelled.
- KratosSolverWrapper.BatchCount: computes `math.ceil(n / b)` over exact rationals. Rounding of the float quotient for very large n is not modelled.
- KratosSolverWrapper.ConstructResult: an `outputDimension` given as a plain integer is not modelled, only a list of batch sizes.
- The serialization work (`Serialize*`, pickling, `ComputeMeshParameters`), `solve` and the three `executeInstance*` methods are distributed tasks and file I/O. `KratosSolverWrapper.Serialize` models only the dispatch on the refinement strategy and its exception. `StochasticRefinementLevels` models only the levels run.
- Opening the file in `findInterfaceFileNumberOfLines` is I/O. Its contents are given as a sequence of lines.
- The inner linear strategy of the mesh-moving strategy, its scheme and its builder-and-solver are foreign code: `StructuralMeshMovingStrategy.Strategy.InnerSolve` takes the solution as a parameter. The shared node container of the mesh part is modelled as one node sequence.
- The element kernels are foreign code:
  - the adjoint element's primal right-hand side is a function parameter;
  - the threshold value of an element's integration point is a given field;
  - `Element::Initialize` in `AssignNodalElementsToNodes` is not modelled;
  - `PerformSemiAnalyticSensitivityAnalysis` and `CalculateGradient` of the eigenfrequency response are not modelled.
- `Node::GetDof` (node.h) is not part of this model. A DoF of the variable at the hinted position is taken, and otherwise the first DoF of the variable. A missing DoF reads as not fixed, where the source would throw. The Z-axis hint `accelpos_x + 2` is kept as written, and `BdfDisplacementScheme.HintIsIrrelevant` shows that the hint does not matter when each variable has one DoF.
- The BDF coefficients `mBDF` and the order come from a base class that is not part of this model. They are inputs with `|bdf| == order + 1`.
- EigenfrequencyResponseFunctionUtility.CheckIfAllNecessaryEigenvaluesAreComputed: requires a non-empty list of traced ids. `std::max_element` of an empty list is undefined behaviour.
- EigenfrequencyResponseFunctionUtility.DetermineEigenvectorOfElement: `resize(size, false)` keeps no defined content, so the contract states only the gathered entries.
- AitkenRelaxationUtility.Aitken.constructor: the fields the C++ constructor leaves uninitialised are unconstrained.
- Inner loops such as `EigenfrequencyResponseFunctionUtility.CopyRow`, `ChimeraProcess.Process.AttachNodeNormal` and `GeometryUtilities.CountElementFaces` are extracted as methods of their own. The loop nest they come from is unchanged.
- AssignNodalElementsToNodes.Process: one model part stands for both the root model part and the sub-model part named by model_part_name. These coincide when model_part_name is `""`, its default. A named smaller sub-model part, whose element loop the source bounds by the root's element count, is not modelled.
- ChimeraCoupling.OwnHostFree: a boundary node is assumed never to be a node of the host element the locator finds for it, in `ChimeraCoupling` and in the cuts of `ChimeraProcess.Process`. The locator searches the other mesh, and the model keeps both meshes in one node sequence.
- GeometryUtilities.Utilities.ComputeUnitSurfaceNormals: requires a non-empty list of conditions in 3D, where the source reads the first condition to choose the face type.
- ChimeraProcess.Process.Valid: requires pressure_coupling_node to be non-negative, and so does `ChimeraProcess.Process.constructor`. The source casts the value to `std::size_t`, which is undefined for a negative value.
- ChimeraProcess.Process.CoupleOneNode: requires a non-empty boundary when pressure_coupling_node is 0, and so do `ApplyMpcConstraint`, `ApplyMpcConstraintForFractionalStep`, `ApplyMpcConstraintFractionalPressure`, `ApplyMpcConstraintConservative`, `CoupleBoundary`, `BoundaryCoupled` and the cuts' `OneCouplingNodes`. On that path the source dereferences the first node of a boundary that may be empty.
- NormalCalculationUtils.ModelPart.SwapNormals: requires every condition to have at least two nodes. The source reads the second node of every condition, which is undefined for a point condition.
- EigenfrequencyResponseFunctionUtility.Utility.CalculateValue: requires every traced id to be at least 1. The source reads eigenvalue id − 1, out of range for an id of 0 or below, which passes its maximum-id check.
- Files outside the twelve modelled ones are not part of this model: variables.h, element headers, Python bindings, test and driver scripts.
