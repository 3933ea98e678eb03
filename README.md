# Raster process manager and command-language utilities

This project models two sequential pieces of a robot-planning pipeline and
proves properties of them in Dafny.

The first piece is the **raster process manager**. It has two parts:

- **The validator.** It checks that a program (a composite instruction)
  has the raster shape `[from_start, raster, transition, raster, ..., raster, to_end]`.
- **`init`.** It turns an accepted program into a two-level graph of tasks:
  - each raster task waits for nothing;
  - each child of a transition group waits for exactly the two neighbouring rasters;
  - `from_start` waits for the first raster of the call, and `to_end` for the last.

  The manager keeps the handles of every raster and freespace task it has
  ever added. These lists survive `clear`.

The second piece is the **command-language utilities**:

- reading and writing the joint position of a waypoint;
- clamping that position to joint limits;
- turning a program into a *skeleton seed*. This is the same tree with every plan
  instruction replaced by an empty composite that keeps its profile,
  description and manipulator.

Files:

- `command_language.dfy` (module `CommandLanguage`): the instruction and
  waypoint values. The type-erased `Instruction` and `Waypoint` wrappers are
  closed datatypes, each `isXxx` test is a discriminator, and
  `CompositeInstruction` is a subset type.
- `utils.dfy` (module `Utils`) covers the utilities:
  - `getJointPosition` is a function, and its `std::runtime_error` becomes an `Exception` outcome.
  - `setJointPosition` and `clampToJointLimits` are methods that update a `WaypointRef`, the caller's `Waypoint&`.
  - The clamp arithmetic is the function `Clamp`.
  - `generateSkeletonSeedHelper` is a method with the loop over the children, proved equal to the recursive specification `SkeletonOf`.
- `raster_process_manager.dfy` (module `ProcessManagers`):
  - The validator is a pure function returning `Accept`, `Reject(reason)` or `OutOfRange`.
  - The manager is the class `RasterProcessManager`. `taskflow`, `rasterTasks`, `freespaceTasks` and the generator lists are its fields.
  - The taskflow is a list of task records. Each record holds a handle, a name, the sub-taskflow it runs and the set of handles it waits for.
  - A sub-taskflow is the opaque value `SubTaskflow(generators, node)`.
  - Task handles come from a counter `nextId`. After `clear`, the handles still kept in `rasterTasks` and `freespaceTasks` therefore never name a task of a later graph; `BuildGraph` and `Init` state this.
  - The graph one call to `init` builds is the function `Graph`. The methods are proved to build exactly that graph, and the lemmas `GraphLayout`, `GraphRaster`, `GraphTransition` and `GraphBrackets` state its edges.

Two behaviours of the code are easy to miss:

- A root composite without children is not simply rejected. The code's
  `composite.at(0)` throws `std::out_of_range`. `CheckProcessInput` returns
  `OutOfRange` for it, and `Init` propagates that as `Exception("out_of_range")`.
- The validator accepts programs with any number of children from one on.
  For one or two children, and for an even number whose last transition
  group is non-empty, `init` then indexes past the end of `raster_tasks`;
  see Findings. An even number of at least four whose last transition group
  is empty is indexed safely (`InitIndexableExactly`).

## Model

| member | source | states |
|---|---|---|
| Utils.GetJointPosition | tesseract/tesseract_planning/tesseract_command_language/src/utils/utils.cpp:40-49 | gives a value exactly for joint and state waypoints, and that value is their position vector; every other waypoint throws "Unsupported waypoint type." |
| Utils.SetJointPosition | tesseract/tesseract_planning/tesseract_command_language/src/utils/utils.cpp:51-61 | reports true exactly for joint and state waypoints; then only the position field changes and reads back as the written vector; otherwise the waypoint is unchanged |
| Utils.SetThenGet | tesseract/tesseract_planning/tesseract_command_language/src/utils/utils.cpp:40-61 | reading the joint position after writing it gives the written vector |
| Utils.GetThenSet | tesseract/tesseract_planning/tesseract_command_language/src/utils/utils.cpp:40-61 | writing back the joint position just read leaves the waypoint unchanged |
| Utils.ClampWithinLimits | tesseract/tesseract_planning/tesseract_command_language/src/utils/utils.cpp:87-89 | with every lower limit at most its upper limit, the clamped vector lies within the limits |
| Utils.ClampKeepsWithin | tesseract/tesseract_planning/tesseract_command_language/src/utils/utils.cpp:77-89 | an element within its limits is kept, so a vector within its limits is unchanged; with consistent limits a vector is unchanged exactly when it is within them |
| Utils.ClampIdempotent | tesseract/tesseract_planning/tesseract_command_language/src/utils/utils.cpp:87-89 | clamping an already clamped vector changes nothing, even for inconsistent limits |
| Utils.ClampToJointLimits | tesseract/tesseract_planning/tesseract_command_language/src/utils/utils.cpp:63-95 | reports false, changing nothing, exactly when a joint or state waypoint has a limit count different from its position length; non-joint waypoints are left alone with true; otherwise the position becomes the element-wise min(max(x, lower), upper), and a position within its limits is not touched |
| Utils.GenerateSkeletonSeedHelper | tesseract/tesseract_planning/tesseract_command_language/src/utils/utils.cpp:97-116 | the composite after the in-place loop over its children equals the recursive rewrite SkeletonOf |
| Utils.SkeletonKeepsShape | tesseract/tesseract_planning/tesseract_command_language/src/utils/utils.cpp:99-104 | the rewrite keeps the number of children at every level of the tree |
| Utils.SkeletonIsPlanFree | tesseract/tesseract_planning/tesseract_command_language/src/utils/utils.cpp:105-114 | no plan instruction is left at any depth |
| Utils.PlanFreeIsFixpoint | tesseract/tesseract_planning/tesseract_command_language/src/utils/utils.cpp:99-115 | a tree without plan instructions is returned exactly as it was |
| Utils.SkeletonIdempotent | tesseract/tesseract_planning/tesseract_command_language/src/utils/utils.cpp:101-115 | seeding a seed changes nothing |
| Utils.SkeletonAt | tesseract/tesseract_planning/tesseract_command_language/src/utils/utils.cpp:99-115 | at every path: a plan instruction becomes an empty composite with its profile, description and manipulator and the default order; any other non-composite is kept; a composite keeps its attributes and child count; paths leaving the original leave the seed |
| Utils.GenerateSkeletonSeed | tesseract/tesseract_planning/tesseract_command_language/src/utils/utils.cpp:118-123 | seeds a copy, so the argument value is untouched; the result is the rewrite of the input, has no plan instruction and has the input's shape |
| ProcessManagers.ScanSteps | tesseract/tesseract_planning/tesseract_process_managers/src/process_managers/raster_process_manager.cpp:188-236 | the interior loop finds a fault exactly when some interior child from the start index on is faulty, and the fault reported belongs to the first faulty index |
| ProcessManagers.CheckProcessInput | tesseract/tesseract_planning/tesseract_process_managers/src/process_managers/raster_process_manager.cpp:161-245 | a null environment is reported before anything else, then a non-composite root; the input is accepted exactly when it has the admitted shape (all children composite, interior rasters non-empty, transitions of more than one child unordered); the only exception is the empty root composite |
| ProcessManagers.ScanStepsFirstFault | tesseract/tesseract_planning/tesseract_process_managers/src/process_managers/raster_process_manager.cpp:188-236 | when index k is the first faulty interior index, the loop reports exactly k's fault |
| ProcessManagers.CheckReportsFirstProblem | tesseract/tesseract_planning/tesseract_process_managers/src/process_managers/raster_process_manager.cpp:180-242 | the validator's order of checks: from_start first, then the first faulty interior child, then to_end |
| ProcessManagers.InitIndexableExactly | tesseract/tesseract_planning/tesseract_process_managers/src/process_managers/raster_process_manager.cpp:73-118 | among accepted programs, every raster_tasks index init computes is in range exactly for an odd size of at least 3, or an even size of at least 4 whose last transition group is empty |
| ProcessManagers.SingleChildAcceptedNotIndexable | tesseract/tesseract_planning/tesseract_process_managers/src/process_managers/raster_process_manager.cpp:118 | a root with a single empty composite child is accepted, yet no raster exists for from_start to follow |
| ProcessManagers.FourChildrenAcceptedNotIndexable | tesseract/tesseract_planning/tesseract_process_managers/src/process_managers/raster_process_manager.cpp:104-105 | a four-child program with a non-empty transition group is accepted, yet its transition needs a second raster that is never added |
| ProcessManagers.CheckRasterInput | tesseract/tesseract_planning/tesseract_process_managers/src/process_managers/raster_process_manager.cpp:53-57 | keeps every rejection of the validator with the same reason, accepts exactly the admitted programs of odd size at least 3, and an accepted program has every index init computes in range |
| ProcessManagers.TransitionsBeforeLayout | tesseract/tesseract_planning/tesseract_process_managers/src/process_managers/raster_process_manager.cpp:89-109 | the transition tasks take consecutive handles after the rasters', each waits for something, and only for raster handles of groups built so far |
| ProcessManagers.TransitionsBeforeAt | tesseract/tesseract_planning/tesseract_process_managers/src/process_managers/raster_process_manager.cpp:89-109 | child j of group h is the transition task at position ChildrenBefore(h) + j |
| ProcessManagers.GraphLayout | tesseract/tesseract_planning/tesseract_process_managers/src/process_managers/raster_process_manager.cpp:73-129 | one task per raster, transition child and bracket, with consecutive handles; exactly the rasters wait for nothing; every task waits only for rasters of the same graph, so the graph has two levels and no cycle |
| ProcessManagers.GraphIds | tesseract/tesseract_planning/tesseract_process_managers/src/process_managers/raster_process_manager.cpp:73-129 | the handles of the graph are consecutive in task order |
| ProcessManagers.GraphRaster | tesseract/tesseract_planning/tesseract_process_managers/src/process_managers/raster_process_manager.cpp:75-86 | raster k is named raster_(2k+1), runs the raster generators on child 2k+1 and waits for nothing |
| ProcessManagers.GraphTransition | tesseract/tesseract_planning/tesseract_process_managers/src/process_managers/raster_process_manager.cpp:88-109 | child j of transition group g is named transition_(2g+2).j, runs the freespace generators on that child, and waits for exactly the rasters of children 2g+1 and 2g+3 |
| ProcessManagers.GraphBrackets | tesseract/tesseract_planning/tesseract_process_managers/src/process_managers/raster_process_manager.cpp:111-129 | the last two tasks are from_start on child 0, waiting only for the first raster, and to_end on the last child, waiting only for the last raster (the one on the child before it) |
| ProcessManagers.RasterProcessManager.constructor | tesseract/tesseract_planning/tesseract_process_managers/src/process_managers/raster_process_manager.cpp:22 | a new manager has an empty taskflow, no task handles and no generators |
| ProcessManagers.RasterProcessManager.ComposedOf | tesseract/tesseract_planning/tesseract_process_managers/src/process_managers/raster_process_manager.cpp:79-84 | appends one named task with its predecessor edges and returns a fresh handle |
| ProcessManagers.RasterProcessManager.AddRasterTasks | tesseract/tesseract_planning/tesseract_process_managers/src/process_managers/raster_process_manager.cpp:75-86 | the raster loop appends exactly the raster tasks, and their consecutive handles go to the end of rasterTasks |
| ProcessManagers.RasterProcessManager.AddTransitionGroup | tesseract/tesseract_planning/tesseract_process_managers/src/process_managers/raster_process_manager.cpp:93-107 | the inner loop appends one task per child of group g, each waiting for rasterTasks[start + g] and rasterTasks[start + g + 1], and their handles go to freespaceTasks |
| ProcessManagers.RasterProcessManager.AddNextTransitionGroup | tesseract/tesseract_planning/tesseract_process_managers/src/process_managers/raster_process_manager.cpp:90-109 | one pass of the outer transition loop extends the tasks of groups before g to those of groups up to g |
| ProcessManagers.RasterProcessManager.AddTransitionTasks | tesseract/tesseract_planning/tesseract_process_managers/src/process_managers/raster_process_manager.cpp:88-109 | the transition loops append the tasks of all groups in order, and their consecutive handles go to freespaceTasks |
| ProcessManagers.RasterProcessManager.AddBrackets | tesseract/tesseract_planning/tesseract_process_managers/src/process_managers/raster_process_manager.cpp:111-129 | appends from_start after the first raster of this call and to_end after the last, both handles going to freespaceTasks |
| ProcessManagers.RasterProcessManager.BuildGraph | tesseract/tesseract_planning/tesseract_process_managers/src/process_managers/raster_process_manager.cpp:72-129 | the taskflow becomes exactly Graph(...) with handles from the old counter on; rasterTasks and freespaceTasks grow by the new handles after those of earlier calls; no handle kept from earlier calls names a task of the new graph; every handle stays below the counter |
| ProcessManagers.RasterProcessManager.Init | tesseract/tesseract_planning/tesseract_process_managers/src/process_managers/raster_process_manager.cpp:50-138 | a rejected input returns false (or the out-of-range exception) with nothing changed; otherwise the default generators fill empty generator lists, the taskflow is replaced by Graph(...), both handle lists are extended, no handle kept from earlier calls names a new task, and true is returned |
| ProcessManagers.RasterProcessManager.Clear | tesseract/tesseract_planning/tesseract_process_managers/src/process_managers/raster_process_manager.cpp:153-159 | empties only the taskflow and returns true; the handle lists are kept |

## Left out

- `execute` and the `success` flag set by `successCallback`/`failureCallback` are not modelled. They are concurrent execution inside the Taskflow library. The flag is last-writer-wins over the branches, not an AND of them.
- `terminate` is not modelled: it is a stub that logs and returns false.
- The `.dot` dump of the taskflow (file output) and all console logging are not modelled.
- `SequentialFailureTreeTaskflow::generateTaskflow` is not part of this model. Its result is the opaque value `SubTaskflow(generators, node)`, and the success and failure callbacks it is given are dropped.
- `defaultFreespaceProcesses` and `defaultRasterProcesses` are not part of this model. `ProcessManagers.RasterProcessManager.Init` takes their results as the parameters `defaultFreespace` and `defaultRaster`.
- Taskflow internals (`composed_of`, `name`, `succeed`, `precede`) are modelled only as appending a task record with its predecessor set. Task handles are natural numbers.
- ProcessManagers.RasterProcessManager.Init: uses the corrected validator `CheckRasterInput`, so every accepted program of size 1, 2 or an even size is rejected with `NotOddSizeAtLeastThree`. For sizes 1 and 2, and for even sizes whose last transition group is non-empty, the original indexes past the end of `raster_tasks`, which is undefined behaviour. For an even size of at least four whose last transition group is empty, the original builds a graph (to_end after the raster on child |kids| - 3) and returns true; the model does not build that graph and returns false.
- ProcessManagers.RasterProcessManager.Init: the message carried by the propagated `std::out_of_range` is implementation-defined. The model carries the fixed text "out_of_range".
- Task names are the structured `TaskName` values; the strings init builds from them with `std::to_string` are not modelled.
- Utils.GenerateSkeletonSeedHelper: the original rewrites its argument through a reference. The model takes the composite as a value and returns the rewritten one, so aliasing of the argument is not captured. `GenerateSkeletonSeed` copies before calling it, as the original does.
- Utils.ClampToJointLimits: Eigen vectors and the n x 2 limits matrix are modelled as `seq<real>` and a sequence of `Limit` rows. Floating-point rounding does not arise, because the clamp only compares and selects.

## Findings

| source | as written | input that shows it | evidently intended | confidence | as-written member | corrected member |
|---|---|---|---|---|---|---|
| tesseract/tesseract_planning/tesseract_process_managers/src/process_managers/raster_process_manager.cpp:161-245 | the validator accepts any number of children from one on (an empty root throws); init then reads `raster_tasks[starting_raster_idx]` (line 118) and `raster_tasks[starting_raster_idx + transition_idx + 1]` (line 105) | a root with one empty composite child; or four composite children whose transition group (child 2) is non-empty | only programs with an odd number of children, at least three, are accepted, so every raster index init computes exists | not executed | ProcessManagers.CheckProcessInput, with ProcessManagers.SingleChildAcceptedNotIndexable and ProcessManagers.FourChildrenAcceptedNotIndexable | ProcessManagers.CheckRasterInput |
