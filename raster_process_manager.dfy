/**
 * The raster process manager: it checks that a program has the raster shape
 *
 *   [from_start, raster, transition, raster, ..., raster, to_end]
 *
 * and turns it into a graph of tasks: one task per raster, one per child of
 * each transition group (after both neighbouring rasters), and one each for
 * from_start (after the first raster) and to_end (after the last raster).
 * Each task runs a sub-taskflow built from a list of process generators for
 * one node of the program; that sub-taskflow is an opaque value here.
 */
module ProcessManagers {
  import opened CommandLanguage

  // ---------------------------------------------------------------------------
  // Input and its validation
  // ---------------------------------------------------------------------------

  /** The process input: whether the environment pointer is set, and the program. */
  datatype ProcessInput = ProcessInput(hasEnvironment: bool, instruction: Instruction)

  /** Why the validator refused an input, one value per diagnostic it logs. */
  datatype Rejection =
    | NullEnvironment
    | RootNotComposite
    | FromStartNotComposite
    | StepNotComposite
    | EmptyRaster
    | TransitionsNotUnordered
    | ToEndNotComposite
    | NotOddSizeAtLeastThree

  /**
   * The validator's verdict. `OutOfRange` is the `std::out_of_range` that
   * `composite.at(0)` throws for a root composite without children.
   */
  datatype Check = Accept | Reject(reason: Rejection) | OutOfRange

  /**
   * What is wrong with the interior child `step` at position `index`, if
   * anything: it must be a composite; at an odd index (a raster) it must not
   * be empty; at an even index (a transition group) it must be unordered when
   * it has more than one child.
   */
  function StepFault(step: Instruction, index: nat): Option<Rejection>
  {
    if !step.Composite? then Some(StepNotComposite)
    else if index % 2 == 1 then (if |step.children| == 0 then Some(EmptyRaster) else None)
    else if |step.children| > 1 && step.order != Unordered then Some(TransitionsNotUnordered)
    else None
  }

  /**
   * The validator's loop over the interior indices `index` .. |kids| - 2,
   * stopping at the first fault: it finds one exactly when one exists, and
   * the one it reports comes from the first faulty index.
   */
  function ScanSteps(kids: seq<Instruction>, index: nat): (r: Option<Rejection>)
    ensures r.None? <==> forall k :: index <= k < |kids| - 1 ==> StepFault(kids[k], k).None?
    ensures r.Some? ==>
              exists k :: index <= k < |kids| - 1 && StepFault(kids[k], k) == r &&
                          forall m :: index <= m < k ==> StepFault(kids[m], m).None?
    decreases |kids| - index
  {
    if index + 1 >= |kids| then None
    else if StepFault(kids[index], index).Some? then StepFault(kids[index], index)
    else ScanSteps(kids, index + 1)
  }

  /** The shape the validator admits, stated without its order of checks. */
  predicate AdmittedSteps(kids: seq<Instruction>)
  {
    && |kids| >= 1
    && kids[0].Composite?
    && kids[|kids| - 1].Composite?
    && (forall k :: 1 <= k < |kids| - 1 ==> kids[k].Composite?)
    && (forall k :: 1 <= k < |kids| - 1 && k % 2 == 1 ==> kids[k].Composite? && |kids[k].children| > 0)
    && (forall k :: 1 <= k < |kids| - 1 && k % 2 == 0 ==>
          kids[k].Composite? && (|kids[k].children| > 1 ==> kids[k].order == Unordered))
  }

  predicate Admitted(input: ProcessInput)
  {
    input.hasEnvironment && input.instruction.Composite? && AdmittedSteps(input.instruction.children)
  }

  /**
   * The validator as written. A missing environment is reported before
   * anything about the program; an input is accepted exactly when it has
   * the admitted shape, and the only exception is the empty root composite.
   */
  function CheckProcessInput(input: ProcessInput): (r: Check)
    ensures !input.hasEnvironment ==> r == Reject(NullEnvironment)
    ensures input.hasEnvironment && !input.instruction.Composite? ==> r == Reject(RootNotComposite)
    ensures r == Accept <==> Admitted(input)
    ensures r == OutOfRange <==>
              input.hasEnvironment && input.instruction.Composite? && input.instruction.children == []
  {
    if !input.hasEnvironment then Reject(NullEnvironment)
    else if !input.instruction.Composite? then Reject(RootNotComposite)
    else
      var kids := input.instruction.children;
      if |kids| == 0 then OutOfRange
      else if !kids[0].Composite? then Reject(FromStartNotComposite)
      else match ScanSteps(kids, 1)
        case Some(fault) => Reject(fault)
        case None => if !kids[|kids| - 1].Composite? then Reject(ToEndNotComposite) else Accept
  }

  /** The scan from `index` reports the fault of the first faulty index `k` at or after it. */
  lemma {:induction false} ScanStepsFirstFault(kids: seq<Instruction>, index: nat, k: nat)
    requires index <= k < |kids| - 1 && StepFault(kids[k], k).Some?
    requires forall m :: index <= m < k ==> StepFault(kids[m], m).None?
    ensures ScanSteps(kids, index) == StepFault(kids[k], k)
    decreases k - index
  {
    if index < k {
      ScanStepsFirstFault(kids, index + 1, k);
    }
  }

  /**
   * The reason the validator reports, in the order it checks: from_start
   * before the interior, the first faulty interior child before any later
   * one, and to_end only when everything before it passed.
   */
  lemma CheckReportsFirstProblem(input: ProcessInput, k: nat)
    requires input.hasEnvironment && input.instruction.Composite?
    requires |input.instruction.children| > 0
    ensures var kids := input.instruction.children;
            !kids[0].Composite? ==> CheckProcessInput(input) == Reject(FromStartNotComposite)
    ensures var kids := input.instruction.children;
            kids[0].Composite? && 1 <= k < |kids| - 1 && StepFault(kids[k], k).Some? &&
            (forall m :: 1 <= m < k ==> StepFault(kids[m], m).None?) ==>
              CheckProcessInput(input) == Reject(StepFault(kids[k], k).value)
    ensures var kids := input.instruction.children;
            kids[0].Composite? && (forall m :: 1 <= m < |kids| - 1 ==> StepFault(kids[m], m).None?) &&
            !kids[|kids| - 1].Composite? ==>
              CheckProcessInput(input) == Reject(ToEndNotComposite)
  {
    var kids := input.instruction.children;
    if kids[0].Composite? && 1 <= k < |kids| - 1 && StepFault(kids[k], k).Some? &&
       (forall m :: 1 <= m < k ==> StepFault(kids[m], m).None?) {
      ScanStepsFirstFault(kids, 1, k);
    }
  }

  /** How many raster tasks the raster loop of init adds: one per odd index below |kids| - 1. */
  function RasterCount(kids: seq<Instruction>): nat
  {
    if |kids| == 0 then 0 else (|kids| - 1) / 2
  }

  /**
   * Init as written indexes `raster_tasks` at `starting_raster_idx` (for
   * from_start) and, for each non-empty transition group at input index idx,
   * at `starting_raster_idx + (idx - 2) / 2` and one past it. After the
   * raster loop the vector holds `starting_raster_idx + RasterCount(kids)`
   * handles, so the offset cancels and this says every such index is in range.
   */
  predicate InitIndexesInRange(kids: seq<Instruction>)
    requires forall k :: 1 <= k < |kids| - 1 ==> kids[k].Composite?
  {
    && RasterCount(kids) >= 1
    && forall idx :: 2 <= idx < |kids| - 1 && idx % 2 == 0 && |kids[idx].children| > 0 ==>
         (idx - 2) / 2 + 1 < RasterCount(kids)
  }

  /**
   * Among accepted inputs, init's indexing stays in range exactly for an odd
   * number of children (at least three), or an even number (at least four)
   * whose last transition group is empty.
   */
  lemma InitIndexableExactly(input: ProcessInput)
    requires CheckProcessInput(input) == Accept
    ensures var kids := input.instruction.children;
            InitIndexesInRange(kids) <==>
              || (|kids| % 2 == 1 && |kids| >= 3)
              || (|kids| % 2 == 0 && |kids| >= 4 && |kids[|kids| - 2].children| == 0)
  {
    var kids := input.instruction.children;
    var n := RasterCount(kids);
    if |kids| % 2 == 1 && |kids| >= 3 {
      forall idx | 2 <= idx < |kids| - 1 && idx % 2 == 0
        ensures (idx - 2) / 2 + 1 < n
      {
      }
    } else if |kids| % 2 == 0 && |kids| >= 4 {
      var last := |kids| - 2;
      assert (last - 2) / 2 + 1 == n;
      if |kids[last].children| == 0 {
        forall idx | 2 <= idx < |kids| - 1 && idx % 2 == 0 && |kids[idx].children| > 0
          ensures (idx - 2) / 2 + 1 < n
        {
          assert idx != last;
        }
      }
    } else {
      assert n == 0;
    }
  }

  const NoManipulator := ManipulatorInfo("", "", "")

  /** A composite with the given children and default attributes. */
  function Group(children: seq<Instruction>): Instruction
  {
    Composite("", "", NoManipulator, DefaultOrder, children)
  }

  /**
   * A root with a single child is accepted, yet there is no raster, so
   * `raster_tasks[starting_raster_idx]` is past the end.
   */
  lemma SingleChildAcceptedNotIndexable()
    ensures var input := ProcessInput(true, Group([Group([])]));
            CheckProcessInput(input) == Accept && !InitIndexesInRange(input.instruction.children)
  {
  }

  /**
   * [from_start, raster, transition, to_end] is accepted, yet the one
   * transition step needs a second raster that was never added.
   */
  lemma FourChildrenAcceptedNotIndexable()
    ensures var step := Plan(NullWp, "", "", NoManipulator);
            var input := ProcessInput(true, Group([Group([]), Group([step]), Group([step]), Group([])]));
            CheckProcessInput(input) == Accept && !InitIndexesInRange(input.instruction.children)
  {
    var step := Plan(NullWp, "", "", NoManipulator);
    var kids := [Group([]), Group([step]), Group([step]), Group([])];
    assert StepFault(kids[1], 1).None? && StepFault(kids[2], 2).None?;
    assert RasterCount(kids) == 1;
  }

  /** The raster shape init needs: an odd number of children, at least three, all interior ones composites. */
  predicate RasterShape(kids: seq<Instruction>)
  {
    |kids| % 2 == 1 && |kids| >= 3 && forall k :: 1 <= k < |kids| - 1 ==> kids[k].Composite?
  }

  /**
   * The validator with the size check init relies on: everything the
   * validator rejects stays rejected for the same reason, and an accepted
   * input has the raster shape, so every index init computes is in range.
   */
  function CheckRasterInput(input: ProcessInput): (r: Check)
    ensures CheckProcessInput(input) != Accept ==> r == CheckProcessInput(input)
    ensures r == Accept <==> Admitted(input) && |input.instruction.children| % 2 == 1 &&
                             |input.instruction.children| >= 3
    ensures r == Accept ==> RasterShape(input.instruction.children) &&
                            InitIndexesInRange(input.instruction.children)
  {
    match CheckProcessInput(input)
    case Accept =>
      var kids := input.instruction.children;
      if |kids| % 2 == 1 && |kids| >= 3 then
        InitIndexableExactly(input);
        Accept
      else Reject(NotOddSizeAtLeastThree)
    case other => other
  }

  // ---------------------------------------------------------------------------
  // The task graph
  // ---------------------------------------------------------------------------

  /** A process generator: one planning attempt of a sequential failure chain. */
  datatype ProcessGenerator = ProcessGenerator(name: string)

  /** The sub-taskflow a generator list yields for one node: opaque beyond what it was built from. */
  datatype SubTaskflow = SubTaskflow(generators: seq<ProcessGenerator>, node: Instruction)

  /** A task of the graph: its handle, its name, what it runs and the handles it waits for. */
  datatype Task = Task(id: nat, name: TaskName, subflow: SubTaskflow, predecessors: set<nat>)

  /**
   * The names init gives its tasks, kept structured: "raster_<idx>",
   * "transition_<idx>.<step>", "from_start" and "to_end".
   */
  datatype TaskName =
    | RasterName(idx: nat)
    | TransitionName(idx: nat, step: nat)
    | FromStartName
    | ToEndName

  /** The consecutive handles lo, lo + 1, ..., hi - 1. */
  function Range(lo: nat, hi: nat): (r: seq<nat>)
    requires lo <= hi
    ensures |r| == hi - lo
  {
    seq(hi - lo, i requires 0 <= i < hi - lo => lo + i)
  }

  /** The handles of a list of tasks. */
  function TaskIds(tasks: seq<Task>): (ids: seq<nat>)
    ensures |ids| == |tasks|
  {
    seq(|tasks|, i requires 0 <= i < |tasks| => tasks[i].id)
  }

  /** Every handle is below `bound`, that is, was handed out before `bound` was reached. */
  ghost predicate HandlesBelow(handles: seq<nat>, bound: nat)
  {
    forall i :: 0 <= i < |handles| ==> handles[i] < bound
  }

  /** Appending fresh handles below the new bound keeps every handle below it. */
  lemma HandlesBelowAppend(handles: seq<nat>, lo: nat, hi: nat, bound: nat)
    requires HandlesBelow(handles, lo) && lo <= hi <= bound
    ensures HandlesBelow(handles + Range(lo, hi), bound)
  {
  }

  /**
   * Tasks numbered first .. next - 1, after handle lists whose handles are all
   * below first, leave every handle below next, and none of those earlier
   * handles names one of the tasks.
   */
  lemma FreshHandles(tasks: seq<Task>, rasters: seq<nat>, freespaces: seq<nat>, first: nat, mid: nat, next: nat)
    requires HandlesBelow(rasters, first) && HandlesBelow(freespaces, first)
    requires first <= mid <= next && TaskIds(tasks) == Range(first, next)
    ensures HandlesBelow(TaskIds(tasks), next)
    ensures HandlesBelow(rasters + Range(first, mid), next)
    ensures HandlesBelow(freespaces + Range(mid, next), next)
    ensures forall h :: h in rasters + freespaces ==> h !in TaskIds(tasks)
  {
    forall h | h in TaskIds(tasks) ensures first <= h {
      var i :| 0 <= i < |TaskIds(tasks)| && TaskIds(tasks)[i] == h;
      assert Range(first, next)[i] == first + i;
    }
    HandlesBelowAppend([], first, next, next);
    assert TaskIds(tasks) == [] + Range(first, next);
    HandlesBelowAppend(rasters, first, mid, next);
    HandlesBelowAppend(freespaces, mid, next, next);
  }

  /** A list of handles that ends in a consecutive run has handle lo + i at position start + i. */
  lemma RangeSuffixAt(handles: seq<nat>, start: nat, lo: nat, hi: nat, i: nat)
    requires lo <= hi && start <= |handles| && handles[start..] == Range(lo, hi)
    requires i < hi - lo
    ensures start + i < |handles| && handles[start + i] == lo + i
  {
    assert handles[start..][i] == Range(lo, hi)[i];
  }

  /** Appending two consecutive runs of handles appends their union. */
  lemma RangeExtend(prefix: seq<nat>, lo: nat, mid: nat, hi: nat)
    requires lo <= mid <= hi
    ensures prefix + Range(lo, mid) + Range(mid, hi) == prefix + Range(lo, hi)
  {
    RangeAppend(lo, mid, hi);
    assert prefix + Range(lo, mid) + Range(mid, hi) == prefix + (Range(lo, mid) + Range(mid, hi));
  }

  /** What follows a prefix of a list of handles is the rest. */
  lemma DropPrefix(prefix: seq<nat>, rest: seq<nat>)
    ensures (prefix + rest)[|prefix|..] == rest
  {
  }

  /** Appending two lists of tasks one after the other appends their concatenation. */
  lemma AppendTasks(tasks: seq<Task>, more: seq<Task>, last: seq<Task>)
    ensures tasks + more + last == tasks + (more + last)
  {
  }

  /** Consecutive runs of handles concatenate. */
  lemma RangeAppend(lo: nat, mid: nat, hi: nat)
    requires lo <= mid <= hi
    ensures Range(lo, mid) + Range(mid, hi) == Range(lo, hi)
  {
  }

  /** The raster tasks, handles from `first` on: raster k covers child 2k + 1 and waits for nothing. */
  function RasterTasks(kids: seq<Instruction>, gens: seq<ProcessGenerator>, first: nat): (ts: seq<Task>)
    requires RasterShape(kids)
    ensures |ts| == RasterCount(kids)
  {
    seq(RasterCount(kids), k requires 0 <= k < RasterCount(kids) =>
      Task(first + k, RasterName(2 * k + 1), SubTaskflow(gens, kids[2 * k + 1]), {}))
  }

  /**
   * The tasks of transition group g (child 2g + 2), handles from `id` on:
   * one per child of the group, each waiting for rasters g and g + 1.
   */
  function TransitionGroup(kids: seq<Instruction>, gens: seq<ProcessGenerator>, first: nat, g: nat, id: nat)
    : (ts: seq<Task>)
    requires RasterShape(kids) && g + 1 < RasterCount(kids)
    ensures |ts| == |kids[2 * g + 2].children|
  {
    var cs := kids[2 * g + 2].children;
    seq(|cs|, j requires 0 <= j < |cs| =>
      Task(id + j, TransitionName(2 * g + 2, j),
           SubTaskflow(gens, cs[j]), {first + g, first + g + 1}))
  }

  /** The tasks of transition groups 0 .. g - 1, in order, handles right after the rasters'. */
  function TransitionsBefore(kids: seq<Instruction>, gens: seq<ProcessGenerator>, first: nat, g: nat)
    : seq<Task>
    requires RasterShape(kids) && g < RasterCount(kids)
    decreases g
  {
    if g == 0 then []
    else
      var earlier := TransitionsBefore(kids, gens, first, g - 1);
      earlier + TransitionGroup(kids, gens, first, g - 1, first + RasterCount(kids) + |earlier|)
  }

  /** Building one more group appends its tasks. */
  lemma TransitionsBeforeStep(kids: seq<Instruction>, gens: seq<ProcessGenerator>, first: nat, g: nat)
    requires RasterShape(kids) && g + 1 < RasterCount(kids)
    ensures var before := TransitionsBefore(kids, gens, first, g);
            TransitionsBefore(kids, gens, first, g + 1) ==
              before + TransitionGroup(kids, gens, first, g, first + RasterCount(kids) + |before|)
  {
  }

  /** The number of children of transition groups 0 .. g - 1. */
  function ChildrenBefore(kids: seq<Instruction>, g: nat): nat
    requires RasterShape(kids) && g < RasterCount(kids)
    decreases g
  {
    if g == 0 then 0 else ChildrenBefore(kids, g - 1) + |kids[2 * (g - 1) + 2].children|
  }

  /**
   * The graph init builds for a program of raster shape, handles from
   * `first` on: the rasters, then the transitions group by group, then
   * from_start after the first raster and to_end after the last.
   */
  function Graph(kids: seq<Instruction>, freespace: seq<ProcessGenerator>, raster: seq<ProcessGenerator>,
                 first: nat): seq<Task>
    requires RasterShape(kids)
  {
    var n := RasterCount(kids);
    var transitions := TransitionsBefore(kids, freespace, first, n - 1);
    var next := first + n + |transitions|;
    RasterTasks(kids, raster, first) + transitions
      + [Task(next, FromStartName, SubTaskflow(freespace, kids[0]), {first}),
         Task(next + 1, ToEndName, SubTaskflow(freespace, kids[|kids| - 1]), {first + n - 1})]
  }

  /**
   * The transition tasks so far take consecutive handles after the rasters',
   * each waits for something, and everything they wait for is a raster handle.
   */
  lemma {:induction false} TransitionsBeforeLayout(kids: seq<Instruction>, gens: seq<ProcessGenerator>,
                                                   first: nat, g: nat)
    requires RasterShape(kids) && g < RasterCount(kids)
    ensures var ts := TransitionsBefore(kids, gens, first, g);
            && |ts| == ChildrenBefore(kids, g)
            && (forall i :: 0 <= i < |ts| ==> ts[i].id == first + RasterCount(kids) + i)
            && (forall i :: 0 <= i < |ts| ==> ts[i].predecessors != {})
            && (forall i, p :: 0 <= i < |ts| && p in ts[i].predecessors ==> first <= p < first + g + 1)
    decreases g
  {
    if g > 0 {
      TransitionsBeforeLayout(kids, gens, first, g - 1);
      var earlier := TransitionsBefore(kids, gens, first, g - 1);
      var group := TransitionGroup(kids, gens, first, g - 1, first + RasterCount(kids) + |earlier|);
      var ts := earlier + group;
      forall i | |earlier| <= i < |ts|
        ensures ts[i].id == first + RasterCount(kids) + i
        ensures first + g - 1 in ts[i].predecessors
        ensures forall p :: p in ts[i].predecessors ==> first <= p < first + g + 1
      {
        assert ts[i] == group[i - |earlier|];
      }
    }
  }

  /** Child j of transition group h sits at position ChildrenBefore(kids, h) + j once group h is built. */
  lemma {:induction false} TransitionsBeforeAt(kids: seq<Instruction>, gens: seq<ProcessGenerator>,
                                               first: nat, g: nat, h: nat, j: nat)
    requires RasterShape(kids) && g < RasterCount(kids) && h < g && j < |kids[2 * h + 2].children|
    ensures ChildrenBefore(kids, h) + j < |TransitionsBefore(kids, gens, first, g)|
    ensures TransitionsBefore(kids, gens, first, g)[ChildrenBefore(kids, h) + j] ==
            TransitionGroup(kids, gens, first, h, first + RasterCount(kids) + ChildrenBefore(kids, h))[j]
    decreases g
  {
    TransitionsBeforeLayout(kids, gens, first, g - 1);
    if h < g - 1 {
      TransitionsBeforeAt(kids, gens, first, g - 1, h, j);
    }
  }

  /** The number of tasks of all transition groups together. */
  function TransitionCount(kids: seq<Instruction>): nat
    requires RasterShape(kids)
  {
    ChildrenBefore(kids, RasterCount(kids) - 1)
  }

  /** The graph spelled out: rasters, transitions, from_start, to_end. */
  lemma GraphUnfold(kids: seq<Instruction>, freespace: seq<ProcessGenerator>, raster: seq<ProcessGenerator>,
                    first: nat)
    requires RasterShape(kids)
    ensures var n := RasterCount(kids);
            var transitions := TransitionsBefore(kids, freespace, first, n - 1);
            var next := first + n + |transitions|;
            Graph(kids, freespace, raster, first) ==
              RasterTasks(kids, raster, first) + transitions
                + [Task(next, FromStartName, SubTaskflow(freespace, kids[0]), {first}),
                   Task(next + 1, ToEndName, SubTaskflow(freespace, kids[|kids| - 1]), {first + n - 1})]
  {
  }

  /**
   * The graph as a whole: one task per raster, per transition child and per
   * bracket, with consecutive handles; exactly the rasters wait for nothing;
   * and every task waits only for raster tasks of this same graph, so the
   * graph has two levels and no cycle.
   */
  lemma GraphLayout(kids: seq<Instruction>, freespace: seq<ProcessGenerator>, raster: seq<ProcessGenerator>,
                    first: nat)
    requires RasterShape(kids)
    ensures var gr := Graph(kids, freespace, raster, first);
            && |gr| == RasterCount(kids) + TransitionCount(kids) + 2
            && (forall i :: 0 <= i < |gr| ==> gr[i].id == first + i)
            && (forall i :: 0 <= i < |gr| ==> (gr[i].predecessors == {} <==> i < RasterCount(kids)))
            && (forall i, p :: 0 <= i < |gr| && p in gr[i].predecessors ==>
                  first <= p < first + RasterCount(kids) && gr[p - first].predecessors == {})
  {
    var n := RasterCount(kids);
    TransitionsBeforeLayout(kids, freespace, first, n - 1);
    GraphUnfold(kids, freespace, raster, first);
    var rasters := RasterTasks(kids, raster, first);
    var transitions := TransitionsBefore(kids, freespace, first, n - 1);
    var gr := Graph(kids, freespace, raster, first);
    var body := rasters + transitions;
    assert |gr| == |body| + 2;
    forall i | 0 <= i < |gr|
      ensures gr[i].id == first + i
      ensures gr[i].predecessors == {} <==> i < n
      ensures forall p :: p in gr[i].predecessors ==> first <= p < first + n
    {
      if i < n {
        assert gr[i] == body[i] == rasters[i];
      } else if i < |body| {
        assert gr[i] == body[i] == transitions[i - n];
      } else if i == |body| {
        assert gr[i].id == first + n + |transitions| && gr[i].predecessors == {first};
      } else {
        assert gr[i].id == first + n + |transitions| + 1 && gr[i].predecessors == {first + n - 1};
      }
    }
  }

  /** The handles of the graph are exactly first, first + 1, ..., in task order. */
  lemma GraphIds(kids: seq<Instruction>, freespace: seq<ProcessGenerator>, raster: seq<ProcessGenerator>,
                 first: nat)
    requires RasterShape(kids)
    ensures var gr := Graph(kids, freespace, raster, first);
            TaskIds(gr) == Range(first, first + |gr|)
  {
    GraphLayout(kids, freespace, raster, first);
  }

  /** Raster k is task k: it covers child 2k + 1, runs the raster generators and waits for nothing. */
  lemma GraphRaster(kids: seq<Instruction>, freespace: seq<ProcessGenerator>, raster: seq<ProcessGenerator>,
                    first: nat, k: nat)
    requires RasterShape(kids) && k < RasterCount(kids)
    ensures var gr := Graph(kids, freespace, raster, first);
            && k < |gr|
            && gr[k].name == RasterName(2 * k + 1)
            && gr[k].subflow == SubTaskflow(raster, kids[2 * k + 1])
            && gr[k].predecessors == {}
  {
  }

  /**
   * Child j of transition group g (child 2g + 2 of the program) has exactly
   * one task; it runs the freespace generators on that child and waits for
   * exactly the two raster tasks of its neighbours, children 2g + 1 and 2g + 3.
   */
  lemma GraphTransition(kids: seq<Instruction>, freespace: seq<ProcessGenerator>,
                        raster: seq<ProcessGenerator>, first: nat, g: nat, j: nat)
    requires RasterShape(kids) && g + 1 < RasterCount(kids) && j < |kids[2 * g + 2].children|
    ensures var gr := Graph(kids, freespace, raster, first);
            var t := RasterCount(kids) + ChildrenBefore(kids, g) + j;
            && t < |gr|
            && gr[t].name == TransitionName(2 * g + 2, j)
            && gr[t].subflow == SubTaskflow(freespace, kids[2 * g + 2].children[j])
            && gr[t].predecessors == {gr[g].id, gr[g + 1].id}
            && gr[g].subflow.node == kids[2 * g + 1]
            && gr[g + 1].subflow.node == kids[2 * g + 3]
  {
    var n := RasterCount(kids);
    TransitionsBeforeAt(kids, freespace, first, n - 1, g, j);
    var rasters := RasterTasks(kids, raster, first);
    var transitions := TransitionsBefore(kids, freespace, first, n - 1);
    var next := first + n + |transitions|;
    var fromStart := Task(next, FromStartName, SubTaskflow(freespace, kids[0]), {first});
    var toEnd := Task(next + 1, ToEndName, SubTaskflow(freespace, kids[|kids| - 1]), {first + n - 1});
    var gr := Graph(kids, freespace, raster, first);
    assert gr == rasters + transitions + [fromStart, toEnd];
    var c := ChildrenBefore(kids, g);
    var group := TransitionGroup(kids, freespace, first, g, first + n + c);
    assert gr[n + c + j] == transitions[c + j] == group[j];
    assert group[j].predecessors == {first + g, first + g + 1};
    assert gr[g] == rasters[g] && gr[g + 1] == rasters[g + 1];
    assert rasters[g].id == first + g && rasters[g + 1].id == first + g + 1;
  }

  /**
   * The last two tasks are from_start, covering child 0 and waiting only for
   * the first raster, and to_end, covering the last child and waiting only
   * for the last raster (the one covering the child before it).
   */
  lemma GraphBrackets(kids: seq<Instruction>, freespace: seq<ProcessGenerator>, raster: seq<ProcessGenerator>,
                      first: nat)
    requires RasterShape(kids)
    ensures var gr := Graph(kids, freespace, raster, first);
            var n := RasterCount(kids);
            && |gr| >= n + 2
            && gr[|gr| - 2].name == FromStartName
            && gr[|gr| - 2].subflow == SubTaskflow(freespace, kids[0])
            && gr[|gr| - 2].predecessors == {gr[0].id}
            && gr[|gr| - 1].name == ToEndName
            && gr[|gr| - 1].subflow == SubTaskflow(freespace, kids[|kids| - 1])
            && gr[|gr| - 1].predecessors == {gr[n - 1].id}
            && gr[n - 1].subflow.node == kids[|kids| - 2]
  {
    var n := RasterCount(kids);
    var rasters := RasterTasks(kids, raster, first);
    var transitions := TransitionsBefore(kids, freespace, first, n - 1);
    var next := first + n + |transitions|;
    var fromStart := Task(next, FromStartName, SubTaskflow(freespace, kids[0]), {first});
    var toEnd := Task(next + 1, ToEndName, SubTaskflow(freespace, kids[|kids| - 1]), {first + n - 1});
    var gr := Graph(kids, freespace, raster, first);
    assert gr == rasters + transitions + [fromStart, toEnd];
    assert gr[|gr| - 2] == fromStart && gr[|gr| - 1] == toEnd;
    assert gr[0] == rasters[0] && gr[n - 1] == rasters[n - 1];
  }

  // ---------------------------------------------------------------------------
  // The process manager
  // ---------------------------------------------------------------------------

  /**
   * The manager's state: the taskflow (the tasks of the graph), the handles
   * of every raster and freespace task ever added (these vectors are never
   * cleared), and the generator lists. `nextId` hands out task handles, so a
   * handle left over from an earlier graph never names a task of a later one.
   */
  class RasterProcessManager {
    var taskflow: seq<Task>
    var rasterTasks: seq<nat>
    var freespaceTasks: seq<nat>
    var freespaceProcessGenerators: seq<ProcessGenerator>
    var rasterProcessGenerators: seq<ProcessGenerator>
    var nextId: nat

    /** Every handle in use was handed out before. */
    ghost predicate Valid()
      reads this
    {
      && HandlesBelow(TaskIds(taskflow), nextId)
      && HandlesBelow(rasterTasks, nextId)
      && HandlesBelow(freespaceTasks, nextId)
    }

    constructor ()
      ensures Valid()
      ensures taskflow == [] && rasterTasks == [] && freespaceTasks == []
      ensures freespaceProcessGenerators == [] && rasterProcessGenerators == []
    {
      taskflow, rasterTasks, freespaceTasks := [], [], [];
      freespaceProcessGenerators, rasterProcessGenerators := [], [];
      nextId := 0;
    }

    /** `taskflow.composed_of(subflow).name(name)` with its predecessor edges: adds one task, gives its handle. */
    method ComposedOf(name: TaskName, subflow: SubTaskflow, predecessors: set<nat>) returns (id: nat)
      modifies this`taskflow, this`nextId
      ensures id == old(nextId) && nextId == old(nextId) + 1
      ensures taskflow == old(taskflow) + [Task(id, name, subflow, predecessors)]
    {
      id := nextId;
      taskflow := taskflow + [Task(id, name, subflow, predecessors)];
      nextId := nextId + 1;
    }

    /**
     * The raster loop of init: one task per odd index below |kids| - 1, each
     * depending on nothing, its handle appended to `rasterTasks`.
     */
    method AddRasterTasks(kids: seq<Instruction>)
      requires RasterShape(kids)
      modifies this`taskflow, this`nextId, this`rasterTasks
      ensures taskflow == old(taskflow) + RasterTasks(kids, rasterProcessGenerators, old(nextId))
      ensures nextId == old(nextId) + RasterCount(kids)
      ensures rasterTasks == old(rasterTasks) + Range(old(nextId), nextId)
    {
      ghost var rasters := RasterTasks(kids, rasterProcessGenerators, nextId);
      var idx := 1;
      ghost var k := 0;
      while idx < |kids| - 1
        invariant idx == 2 * k + 1 && k <= RasterCount(kids)
        invariant nextId == old(nextId) + k
        invariant taskflow == old(taskflow) + rasters[..k]
        invariant rasterTasks == old(rasterTasks) + Range(old(nextId), nextId)
      {
        var rasterStep := ComposedOf(RasterName(idx), SubTaskflow(rasterProcessGenerators, kids[idx]), {});
        rasterTasks := rasterTasks + [rasterStep];
        assert rasters[..k + 1] == rasters[..k] + [rasters[k]];
        RangeAppend(old(nextId), nextId - 1, nextId);
        idx, k := idx + 2, k + 1;
      }
      assert rasters[..k] == rasters;
    }

    /**
     * The body of init's transition loop for group g (child 2g + 2): one task
     * per child of the group, each depending on the raster handles at
     * `startingRasterIdx + g` and one past it, its handle appended to
     * `freespaceTasks`.
     */
    method AddTransitionGroup(kids: seq<Instruction>, g: nat, startingRasterIdx: nat, ghost first: nat)
      requires RasterShape(kids) && g + 1 < RasterCount(kids)
      requires startingRasterIdx + g + 1 < |rasterTasks|
      requires rasterTasks[startingRasterIdx + g] == first + g
      requires rasterTasks[startingRasterIdx + g + 1] == first + g + 1
      modifies this`taskflow, this`nextId, this`freespaceTasks
      ensures taskflow == old(taskflow) + TransitionGroup(kids, freespaceProcessGenerators, first, g, old(nextId))
      ensures nextId == old(nextId) + |kids[2 * g + 2].children|
      ensures freespaceTasks == old(freespaceTasks) + Range(old(nextId), nextId)
    {
      var inputIdx := 2 * g + 2;
      var transitions := kids[inputIdx].children;
      ghost var group := TransitionGroup(kids, freespaceProcessGenerators, first, g, nextId);
      var transitionStepIdx := 0;
      while transitionStepIdx < |transitions|
        invariant 0 <= transitionStepIdx <= |transitions|
        invariant nextId == old(nextId) + transitionStepIdx
        invariant taskflow == old(taskflow) + group[..transitionStepIdx]
        invariant freespaceTasks == old(freespaceTasks) + Range(old(nextId), nextId)
      {
        var transitionStep := ComposedOf(
          TransitionName(inputIdx, transitionStepIdx),
          SubTaskflow(freespaceProcessGenerators, transitions[transitionStepIdx]),
          {rasterTasks[startingRasterIdx + g], rasterTasks[startingRasterIdx + g + 1]});
        freespaceTasks := freespaceTasks + [transitionStep];
        assert group[..transitionStepIdx + 1] == group[..transitionStepIdx] + [group[transitionStepIdx]];
        transitionStepIdx := transitionStepIdx + 1;
      }
      assert group[..transitionStepIdx] == group;
    }

    /**
     * One pass of init's transition loop, stated against the tasks of the
     * groups before g: after it the taskflow and `freespaceTasks` hold the
     * tasks of groups 0 to g.
     */
    method AddNextTransitionGroup(kids: seq<Instruction>, g: nat, startingRasterIdx: nat, ghost first: nat,
                                  ghost tasks0: seq<Task>, ghost freespace0: seq<nat>)
      requires RasterShape(kids) && g + 1 < RasterCount(kids)
      requires startingRasterIdx + RasterCount(kids) == |rasterTasks|
      requires rasterTasks[startingRasterIdx..] == Range(first, first + RasterCount(kids))
      requires taskflow == tasks0 + TransitionsBefore(kids, freespaceProcessGenerators, first, g)
      requires nextId == first + RasterCount(kids) + |TransitionsBefore(kids, freespaceProcessGenerators, first, g)|
      requires freespaceTasks == freespace0 + Range(first + RasterCount(kids), nextId)
      modifies this`taskflow, this`nextId, this`freespaceTasks
      ensures taskflow == tasks0 + TransitionsBefore(kids, freespaceProcessGenerators, first, g + 1)
      ensures nextId == first + RasterCount(kids) + |TransitionsBefore(kids, freespaceProcessGenerators, first, g + 1)|
      ensures freespaceTasks == freespace0 + Range(first + RasterCount(kids), nextId)
    {
      ghost var n := RasterCount(kids);
      ghost var before := TransitionsBefore(kids, freespaceProcessGenerators, first, g);
      ghost var idBefore := nextId;
      RangeSuffixAt(rasterTasks, startingRasterIdx, first, first + n, g);
      RangeSuffixAt(rasterTasks, startingRasterIdx, first, first + n, g + 1);
      AddTransitionGroup(kids, g, startingRasterIdx, first);
      ghost var group := TransitionGroup(kids, freespaceProcessGenerators, first, g, idBefore);
      TransitionsBeforeStep(kids, freespaceProcessGenerators, first, g);
      AppendTasks(tasks0, before, group);
      RangeExtend(freespace0, first + n, idBefore, nextId);
    }

    /**
     * The transition loop of init: for each transition group g in order, the
     * tasks of AddTransitionGroup, depending on the raster handles at
     * `startingRasterIdx + g` and one past it.
     */
    method AddTransitionTasks(kids: seq<Instruction>, startingRasterIdx: nat, ghost first: nat)
      requires RasterShape(kids)
      requires startingRasterIdx + RasterCount(kids) == |rasterTasks|
      requires rasterTasks[startingRasterIdx..] == Range(first, first + RasterCount(kids))
      requires nextId == first + RasterCount(kids)
      modifies this`taskflow, this`nextId, this`freespaceTasks
      ensures taskflow == old(taskflow) + TransitionsBefore(kids, freespaceProcessGenerators, first, RasterCount(kids) - 1)
      ensures nextId == old(nextId) + |TransitionsBefore(kids, freespaceProcessGenerators, first, RasterCount(kids) - 1)|
      ensures freespaceTasks == old(freespaceTasks) + Range(old(nextId), nextId)
    {
      var size := |kids|;
      ghost var n := RasterCount(kids);
      var transitionIdx := 0;
      var inputIdx := 2;
      while inputIdx < size - 1
        invariant inputIdx == 2 * transitionIdx + 2 && transitionIdx < n
        invariant nextId == first + n + |TransitionsBefore(kids, freespaceProcessGenerators, first, transitionIdx)|
        invariant taskflow == old(taskflow) + TransitionsBefore(kids, freespaceProcessGenerators, first, transitionIdx)
        invariant freespaceTasks == old(freespaceTasks) + Range(first + n, nextId)
      {
        AddNextTransitionGroup(kids, transitionIdx, startingRasterIdx, first, old(taskflow), old(freespaceTasks));
        transitionIdx := transitionIdx + 1;
        inputIdx := inputIdx + 2;
      }
      assert transitionIdx == n - 1;
    }

    /**
     * The part of init after validation and the generator defaults: the
     * raster tasks, the transition tasks group by group, then from_start and
     * to_end, with handles from `nextId` on.
     */
    method BuildGraph(kids: seq<Instruction>)
      requires RasterShape(kids) && Valid() && taskflow == []
      modifies this`taskflow, this`nextId, this`rasterTasks, this`freespaceTasks
      ensures Valid()
      ensures taskflow == Graph(kids, freespaceProcessGenerators, rasterProcessGenerators, old(nextId))
      ensures nextId == old(nextId) + |taskflow|
      ensures rasterTasks == old(rasterTasks) + Range(old(nextId), old(nextId) + RasterCount(kids))
      ensures freespaceTasks == old(freespaceTasks) + Range(old(nextId) + RasterCount(kids), nextId)
      ensures forall h :: h in old(rasterTasks) + old(freespaceTasks) ==> h !in TaskIds(taskflow)
    {
      var size := |kids|;
      var startingRasterIdx := |rasterTasks|;
      ghost var first := nextId;
      ghost var n := RasterCount(kids);
      ghost var rasters := RasterTasks(kids, rasterProcessGenerators, first);

      // The raster tasks; they depend on nothing.
      AddRasterTasks(kids);

      // The transition tasks; each depends on its two neighbouring rasters.
      DropPrefix(old(rasterTasks), Range(first, first + n));
      AddTransitionTasks(kids, startingRasterIdx, first);

      // from_start after the first raster of this call, to_end after the last.
      ghost var transitions := TransitionsBefore(kids, freespaceProcessGenerators, first, n - 1);
      ghost var next := nextId;
      AddBrackets(kids, startingRasterIdx, first);
      RangeExtend(old(freespaceTasks), first + n, next, next + 2);
      assert taskflow == rasters + transitions
        + [Task(next, FromStartName, SubTaskflow(freespaceProcessGenerators, kids[0]), {first}),
           Task(next + 1, ToEndName, SubTaskflow(freespaceProcessGenerators, kids[|kids| - 1]), {first + n - 1})];
      GraphUnfold(kids, freespaceProcessGenerators, rasterProcessGenerators, first);
      GraphIds(kids, freespaceProcessGenerators, rasterProcessGenerators, first);
      FreshHandles(taskflow, old(rasterTasks), old(freespaceTasks), first, first + n, nextId);
    }

    /**
     * The two bracket tasks of init: from_start runs the first child after
     * the first raster of this call, to_end the last child after the last
     * raster; both handles are appended to `freespaceTasks`.
     */
    method AddBrackets(kids: seq<Instruction>, startingRasterIdx: nat, ghost first: nat)
      requires RasterShape(kids)
      requires startingRasterIdx + RasterCount(kids) == |rasterTasks|
      requires rasterTasks[startingRasterIdx..] == Range(first, first + RasterCount(kids))
      modifies this`taskflow, this`nextId, this`freespaceTasks
      ensures nextId == old(nextId) + 2
      ensures taskflow == old(taskflow)
        + [Task(old(nextId), FromStartName, SubTaskflow(freespaceProcessGenerators, kids[0]), {first}),
           Task(old(nextId) + 1, ToEndName, SubTaskflow(freespaceProcessGenerators, kids[|kids| - 1]),
                {first + RasterCount(kids) - 1})]
      ensures freespaceTasks == old(freespaceTasks) + Range(old(nextId), nextId)
    {
      var size := |kids|;
      ghost var n := RasterCount(kids);
      RangeSuffixAt(rasterTasks, startingRasterIdx, first, first + n, 0);
      RangeSuffixAt(rasterTasks, startingRasterIdx, first, first + n, n - 1);
      var fromStart := ComposedOf(FromStartName, SubTaskflow(freespaceProcessGenerators, kids[0]),
                                  {rasterTasks[startingRasterIdx]});
      freespaceTasks := freespaceTasks + [fromStart];
      var toEnd := ComposedOf(ToEndName, SubTaskflow(freespaceProcessGenerators, kids[size - 1]),
                              {rasterTasks[|rasterTasks| - 1]});
      freespaceTasks := freespaceTasks + [toEnd];
      assert [fromStart, toEnd] == Range(old(nextId), nextId);
    }

    /**
     * Validates the input (with the size check of CheckRasterInput); on
     * failure returns false, or propagates the exception, changing nothing.
     * Otherwise clears the taskflow, falls back to the given default
     * generator lists where none are set, builds Graph(...) with handles from
     * the old `nextId` on, and appends the new raster handles to
     * `rasterTasks` and the new transition, from_start and to_end handles to
     * `freespaceTasks`, after those of earlier calls.
     */
    method Init(input: ProcessInput, defaultFreespace: seq<ProcessGenerator>,
                defaultRaster: seq<ProcessGenerator>) returns (r: Outcome<bool>)
      requires Valid()
      modifies this
      ensures Valid()
      ensures r == match CheckRasterInput(input)
                   case Accept => Value(true)
                   case Reject(_) => Value(false)
                   case OutOfRange => Exception("out_of_range")
      ensures CheckRasterInput(input) != Accept ==>
                && taskflow == old(taskflow) && nextId == old(nextId)
                && rasterTasks == old(rasterTasks) && freespaceTasks == old(freespaceTasks)
                && freespaceProcessGenerators == old(freespaceProcessGenerators)
                && rasterProcessGenerators == old(rasterProcessGenerators)
      ensures CheckRasterInput(input) == Accept ==>
                && freespaceProcessGenerators ==
                     (if old(freespaceProcessGenerators) == [] then defaultFreespace
                      else old(freespaceProcessGenerators))
                && rasterProcessGenerators ==
                     (if old(rasterProcessGenerators) == [] then defaultRaster else old(rasterProcessGenerators))
      ensures CheckRasterInput(input) == Accept ==>
                var kids := input.instruction.children;
                && taskflow == Graph(kids, freespaceProcessGenerators, rasterProcessGenerators, old(nextId))
                && nextId == old(nextId) + |taskflow|
                && rasterTasks == old(rasterTasks) + Range(old(nextId), old(nextId) + RasterCount(kids))
                && freespaceTasks == old(freespaceTasks) + Range(old(nextId) + RasterCount(kids), nextId)
                && (forall h :: h in old(rasterTasks) + old(freespaceTasks) ==> h !in TaskIds(taskflow))
    {
      var verdict := CheckRasterInput(input);
      if verdict != Accept {
        return if verdict == OutOfRange then Exception("out_of_range") else Value(false);
      }
      var kids := input.instruction.children;

      taskflow := [];
      if freespaceProcessGenerators == [] {
        freespaceProcessGenerators := defaultFreespace;
      }
      if rasterProcessGenerators == [] {
        rasterProcessGenerators := defaultRaster;
      }
      BuildGraph(kids);
      return Value(true);
    }

    /** Empties the taskflow; the handle vectors keep everything added so far. */
    method Clear() returns (ok: bool)
      requires Valid()
      modifies this`taskflow
      ensures Valid() && ok
      ensures taskflow == []
      ensures rasterTasks == old(rasterTasks) && freespaceTasks == old(freespaceTasks)
    {
      taskflow := [];
      return true;
    }
  }
}
